# Proofs about eight C components

Each component is modelled in the form its C code has: classes whose fields are updated in place,
loops with invariants, interleaved steps for the threaded programs. What the code promises is
proved for every input, every run or every schedule. `dafny verify dfyconfig.toml` checks
everything.

| files | component |
|---|---|
| HashTable, WordCount | the open-addressing hash map and the word counter built on it |
| LoggerProtocol, LoggerQueue | the asynchronous logger: the protocol over its mutex and condition variable, and the linked queue on the heap |
| LogTally, LogWorkers, ChainMap | the threaded log aggregator: what is counted, the worker protocol, the chained maps on the heap |
| Zip, ZipBytes, ZipWriter | the reader of zip archives that follow other data, what it accepts byte by byte, and a reference writer |
| RingBuffer | the overwriting ring buffer of the device driver |
| HttpConnection | sending a response over a socket that may take any part of it |
| Crc32, Crc32Burst | the table-driven, chunked CRC-32 and the errors it detects |
| Codepages, Utf8, CodepageConverter | the code tables, the UTF-8 encoder, and the conversion of a C string |
| Wrappers | shared types |

## The main results

- **Word counter.** `countWords` returns exactly the tally of the delimiter-terminated words cut to
  127 characters. It is the frequency of every word of the text if and only if the last word is
  terminated and no word is longer than the buffer. The reason is an invariant no single operation
  keeps: no empty slot lies between a key's home and its slot. `xremove` breaks it, and exactly the
  keys that have the emptied slot as their home become invisible to `get`, but putting the same key
  back refills the same slot.
- **Hash map growth.** Rehashing keeps the map and adds one entry. Inside a rehash no insertion
  triggers another one. Every probe for a free slot ends with any load factor below 1; with load
  factor 1, which `createHashmap` accepts, it ends if and only if the table is not full, and a
  hundred puts fill one. `put` does not look for its key; the keys stay distinct if and only if it
  was absent.
- **Logger.** Over every interleaving, spurious wakeups included, written, in-flight and queued
  messages together are the accepted ones in lock order; no wakeup is lost; queued messages are
  handed over in a bounded number of steps when calls pause; the shutdown cannot deadlock, takes
  boundedly many steps even while new calls come in, and returns with everything handed over. The
  logger's file then holds it all if and only if it is nothing, or the messages do not go to the
  standard output instead and memory for formatting never ran out.
- **Log aggregator.** For any number of threads and any schedule the final tally is that of one
  sequential pass: the byte sum of all lines, the byte sum of each URL and the number of lines of
  each referer. During the run the total differs from the sum of the URL map by exactly the bytes of
  the workers between their two updates. No run deadlocks, and none goes on for longer than a bound
  fixed at its start and two steps for each spurious wakeup.
- **Zip reader.** If the reader accepts a source it accepts it behind any prefix with which the
  whole stays below 2^32 bytes, with the same members; what it accepts behind such a prefix it
  accepts by itself if and only if record, directory and local headers lie behind the prefix. What
  it accepts is described byte by byte, in both directions. Archives from the reference writer read
  back behind such a prefix. The iterator walk of `list_zip` meets the end exactly, with all
  assertions true.
- **Ring buffer.** A write leaves the last `size` bytes of old and new contents. A failed copy
  leaves a suffix of the old ones. Over any run what was read, followed by what is resident, is a
  subsequence of what was written, and is all of it if and only if no write pushed bytes out. A
  driver that makes any list of read and write calls shows this of the buffer itself.
- **HTTP connection.** Partial sends, would-block results, errors and partial file reads put a
  prefix of header and body on the wire, and the whole when the connection finishes. It does finish
  if nothing breaks and the socket takes something often enough, however often it blocks. A client
  that parses what it receives finds the status code, the announced length, and exactly the body.
- **CRC-32.** The table is the bitwise division; chunks make no difference; a file followed by its
  own CRC leaves a fixed residue; a burst of at most 32 bits at any bit position is always detected.
- **UTF-8 converter.** The output decodes, by a strict decoder, to exactly the mapped code points;
  the conversion is injective on C strings for all three codepages. The caller's buffer of twice the
  file size is large enough if and only if the bytes that become three are fewer than those that
  stay single and twice those that follow the text.

## Where code and comments differ

The model follows the code. Each entry names the input at which the description fails and the
exact condition under which it holds.

- `get` is described as returning the value of a stored key
  (08_search_sort_homework/hashmap_open.c:275-282). After a bare `xremove` it may miss one:
  `LoseAKey` makes the calls, `XremoveHidesExactly` says which keys.
- The `limit` argument of `createHashmap` is described as the size at which the map is rebuilt
  (lines 160-166). The code uses it as the size of the array and computes the limit from it
  (170-172): `LimitNotAsAsked` at the call of `countWords`, and `LimitAsAskedIff`.
- `countWords` is described as counting the words of the file (356-360). It misses a last word with
  no delimiter after it and cuts long words (373-417): `UnterminatedWordMissed` and
  `CountsWordsIff`.
- `utf8_encode` stores U+FFFD for a number beyond the last code point but returns the length 0, and
  it encodes surrogates (04_types_contd_homework-12926-ae2162/main.c:178-218): `EncodeRoundTripIff`,
  with `SurrogateEncoded` as the input.
- The array that `convert` passes has twice the size of the file (lines 168-171):
  `CallersArrayTooSmall` and `RoomNeeded`.
- INFO_LOG_FILE is documented as the file for messages of that level
  (12_error_handling/README.md:66). While the common log is stderr the code writes them to the
  standard output and leaves the file empty (12_error_handling/logger.c:216-221):
  `InfoFileStaysEmpty` and `ShutdownFlushes`.

## Model

| member | source | states |
|---|---|---|
| HashTable.HashCode | 08_search_sort_homework/hashmap_open.c:148-156 | the loop over the characters computes the 64-bit hash defined by recursion on the string, with signed characters |
| HashTable.SignedHash | 08_search_sort_homework/hashmap_open.c:148-156 | the hashes of three one-byte keys around and above 127, where a char is negative |
| HashTable.Hashmap.constructor | 08_search_sort_homework/hashmap_open.c:167-179 | an empty, valid map; load factor and multiplier outside their ranges are replaced by the defaults |
| HashTable.Hashmap.Get | 08_search_sort_homework/hashmap_open.c:283-312 | the value first met on the cyclic path from the home slot, found exactly when the key is stored and its home slot is filled; with distinct keys it is the value in the map; the search ends |
| HashTable.Hashmap.Xremove | 08_search_sort_homework/hashmap_open.c:320-350 | takes out exactly the entry first met under the key, wherever it is stored, and changes nothing when the key is absent |
| HashTable.RawPut | 08_search_sort_homework/hashmap_open.c:210-232 | for any key, stored or not: within the limit it lands in the first free slot of its path, over the limit the map is replaced by a larger, well-probed one; the keys stay distinct if and only if the key was absent, and then exactly the new entry is added; needs a free slot when it is to probe for one |
| HashTable.RehashUp | 08_search_sort_homework/hashmap_open.c:255-273 | keeps every entry and adds the new one, distinct if and only if its key was absent; the array at least doubles; a rehash never starts another one |
| HashTable.Put | 08_search_sort_homework/hashmap_open.c:240-246 | the same for a key and a value |
| HashTable.ContentsIff | 08_search_sort_homework/hashmap_open.c:283-312 | a key is in the map an array stands for if and only if a slot holds it, with the value of that slot |
| HashTable.Landing | 08_search_sort_homework/hashmap_open.c:216-228 | storing an entry in the first free slot of its path keeps all stored keys reachable; the keys stay distinct if and only if its key was absent, and then exactly it is added |
| HashTable.LandingUnique | 08_search_sort_homework/hashmap_open.c:216-228 | a key has only one slot to land in |
| HashTable.Refill | 08_search_sort_homework/hashmap_open.c:394-399 | emptying the slot of a reachable key and putting the key again refills the very same slot |
| HashTable.SecondPutUnseen | 08_search_sort_homework/hashmap_open.c:216-228 | putting a stored key again leaves get with the old value, whose slot is still met first |
| HashTable.Empty | 08_search_sort_homework/hashmap_open.c:325-348 | emptying a slot removes exactly its key from the map |
| HashTable.TakenOut | 08_search_sort_homework/hashmap_open.c:325-348 | one entry fewer is stored; of distinct keys exactly the one looked for is gone, with its value returned |
| HashTable.GetFindsStored | 08_search_sort_homework/hashmap_open.c:283-312 | in a well-probed map get sees a key if and only if it is stored |
| HashTable.XremoveHidesExactly | 08_search_sort_homework/hashmap_open.c:288-350 | after a bare removal another stored key is missed by get if and only if the emptied slot is its home |
| HashTable.SameHome | 08_search_sort_homework/hashmap_open.c:148-156 | the keys "4" and "P" start at the same slot of a table of the initial size |
| HashTable.XremoveAloneLosesAKey | 08_search_sort_homework/hashmap_open.c:288-350 | a concrete table in which removing "4" makes get miss the stored "P" |
| HashTable.LoseAKey | 08_search_sort_homework/hashmap_open.c:240-350 | put, put, xremove on a new map, after which get answers none for a key that is stored |
| HashTable.LimitBelowSize | 08_search_sort_homework/hashmap_open.c:170-172 | the limit stays below the array size if and only if the load factor is below 1 |
| HashTable.WholeParts | 08_search_sort_homework/hashmap_open.c:172 | limit and grown size are the whole parts of their products |
| HashTable.GrownLimit | 08_search_sort_homework/hashmap_open.c:170-174 | the limit of a grown array is at least the old array's size, so moving the old entries cannot exceed it |
| HashTable.LimitAsAskedIff | 08_search_sort_homework/hashmap_open.c:160-172 | from the initial size on the limit is the one asked for if and only if the load factor is 1; from 50 on if and only if it is the whole part of a hundred load factors; below 50 never |
| HashTable.LimitNotAsAsked | 08_search_sort_homework/hashmap_open.c:160-172 | createHashmap(2, 0.5, 2) gets the limit 50 |
| HashTable.FullIff | 08_search_sort_homework/hashmap_open.c:216-228 | the count of filled slots reaches the array size if and only if no slot is empty |
| HashTable.ProbeEndsIffNotFull | 08_search_sort_homework/hashmap_open.c:220-225 | the probe for a free slot reaches one if and only if the table is not full |
| HashTable.OnPathIff | 08_search_sort_homework/hashmap_open.c:220-225 | the slots on a path are those a probe visits before it comes to the end of the path |
| HashTable.RoomForAnother | 08_search_sort_homework/hashmap_open.c:171-216 | a further put can end if and only if the load factor is below 1 or a slot is still free |
| HashTable.FullTable | 08_search_sort_homework/hashmap_open.c:167-246 | a new map with load factor 1 and a hundred puts is full: from any home the probe for a free slot meets none |
| WordCount.RunStartIs | 08_search_sort_homework/hashmap_open.c:377-416 | a word's start is the one position from which no delimiter follows and before which a delimiter or the beginning stands |
| WordCount.IsDelimiterIff | 08_search_sort_homework/hashmap_open.c:377-381 | words end at blank, newline, tab, NUL and all ASCII punctuation but # $ % & - : @ _ ~ |
| WordCount.DelimitedWordCounts | 08_search_sort_homework/hashmap_open.c:382-416 | a delimited word counts once, under its full text, or under its first 127 characters if it is longer |
| WordCount.Scanner.constructor | 08_search_sort_homework/hashmap_open.c:364-371 | the state before any input |
| WordCount.Scanner.Feed | 08_search_sort_homework/hashmap_open.c:374-416 | after each character the buffer holds the word in progress, cut to 127 characters; a delimiter yields the word exactly when there is one |
| WordCount.CStringIs | 08_search_sort_homework/hashmap_open.c:385-390 | the terminated buffer read as a C string is the word |
| WordCount.HistogramTallies | 08_search_sort_homework/hashmap_open.c:394-403 | adding the words one by one gives every key its number of occurrences and no other key |
| WordCount.CountsWordsIff | 08_search_sort_homework/hashmap_open.c:356-417 | what the code counts is what the text contains, for every key, if and only if the input is empty or ends in a delimiter and no word has 128 characters |
| WordCount.UnterminatedWordMissed | 08_search_sort_homework/hashmap_open.c:373-417 | the text "a" has one word and the code counts none |
| WordCount.Replace | 08_search_sort_homework/hashmap_open.c:397-399 | remove, then put of the same key changes only the value in the key's own slot and never rehashes |
| WordCount.Increment | 08_search_sort_homework/hashmap_open.c:394-403 | one more occurrence of the key is counted and the map is well-probed again |
| WordCount.CountWords | 08_search_sort_homework/hashmap_open.c:361-422 | for every input the map sends each key to exactly the number of delimiter-terminated words whose first 127 characters equal it, and holds no other key; it gives the frequency of every word of the text if and only if the last word is terminated and all words fit the buffer |
| WordCount.PrintDescending | 08_search_sort_homework/hashmap_open.c:428-448 | every entry is listed exactly once, each line with a larger value than the next or the same value from a higher slot, also when a key is stored twice; with distinct keys the lines are the map |
| WordCount.OrderLists | 08_search_sort_homework/hashmap_open.c:428-448 | slots listed best first, all of them, list each key of the map once with its value, values never increasing |
| WordCount.RankedCount | 08_search_sort_homework/hashmap_open.c:432-446 | a ranked listing is as long as the map if and only if it leaves no entry out |
| LoggerProtocol.StepKeepsInv | 12_error_handling/logger.c:257-289 | every step of writer, producers and shutdown keeps mutual exclusion, conservation of messages and the absence of lost wakeups |
| LoggerProtocol.WriterKeepsInv | 12_error_handling/logger.c:257-289 | the same for the writer thread, wait and drain loop included |
| LoggerProtocol.ProducerKeepsInv | 12_error_handling/logger.c:451-471 | the same for the enqueueing of a message, with and without memory for it |
| LoggerProtocol.CloserKeepsInv | 12_error_handling/logger.c:332-343 | the same for the shutdown |
| LoggerProtocol.RunKeepsInv | 12_error_handling/logger.c:257-289 | the invariant holds in every state of every run |
| LoggerProtocol.AcceptedIs | 12_error_handling/logger.c:451-471 | the accepted messages are a function of the actions alone: those of all logging calls that got memory, in the order in which they did, whatever else is queued |
| LoggerProtocol.CallAppends | 12_error_handling/logger.c:451-471 | in any state in which a call can begin, an undisturbed one appends its message at the end, wakes a waiting writer and leaves the rest alone |
| LoggerProtocol.NothingLost | 12_error_handling/logger.c:257-289 | in every reachable state the messages handed to the file, in flight and queued are those of all calls that got memory, in lock order |
| LoggerProtocol.ShutdownFlushes | 12_error_handling/logger.c:332-343 | when the shutdown returns the message of every call that got memory has been handed over, once and in order; the file of the logger holds them all if and only if there are none, or they do not go to the standard output and memory never ran out |
| LoggerProtocol.FormattedIff | 12_error_handling/logger.c:212-250 | all messages handed over come out if and only if each had memory for its formatting |
| LoggerProtocol.DestinationFixed | 12_error_handling/logger.c:216-221 | whether messages go to the standard output does not change during a run |
| LoggerProtocol.InfoFileStaysEmpty | 12_error_handling/logger.c:216-221 | a complete run with memory throughout that accepts one message of level INFO: it is on the standard output and the file is empty |
| LoggerProtocol.AcceptedBeforeClearIsWritten | 12_error_handling/logger.c:279-338 | whatever had been accepted before running was cleared has been handed to the file when the shutdown returns |
| LoggerProtocol.NoWakeupLost | 12_error_handling/logger.c:260-264 | a writer blocked without a signal on its way has an empty queue and is not being shut down |
| LoggerProtocol.NoDeadlock | 12_error_handling/logger.c:332-338 | while a shutdown is under way some thread can make a step that is neither a new call nor a spurious wakeup |
| LoggerProtocol.ShutdownProgress | 12_error_handling/logger.c:279-338 | after running is cleared every step but a new logging call uses up a natural-number measure |
| LoggerProtocol.ShutdownBounded | 12_error_handling/logger.c:279-338 | a shutdown takes no more steps than the measure it starts with, plus six for each logging call that begins meanwhile |
| LoggerProtocol.BusyMoves | 12_error_handling/logger.c:257-289 | while a message is queued or in the writer's hands some thread inside the logger can move without a new call, a spurious wakeup or a new shutdown |
| LoggerProtocol.RunBounded | 12_error_handling/logger.c:257-289 | any run, shut down or not, has at most ten steps, plus ten for each logging call and three for each spurious wakeup, so every message is handed over when calls pause |
| LoggerQueue.AsyncLogger.constructor | 12_error_handling/logger.c:303 | an empty queue |
| LoggerQueue.AsyncLogger.Enqueue | 12_error_handling/logger.c:454-463 | the chain gains the message at its end and its nodes stay in place |
| LoggerQueue.AsyncLogger.Unlink | 12_error_handling/logger.c:265-266 | the head comes off and the rest of the chain stays linked |
| LoggerQueue.AsyncLogger.Dequeue | 12_error_handling/logger.c:265-268 | the first message is taken and the queue is well formed again, tail pointer included |
| LoggerQueue.AsyncLogger.Drain | 12_error_handling/logger.c:279-286 | all queued messages come out in order; the tail pointer is valid afterwards if and only if the queue was empty before |
| LogTally.ApplyCommutes | 17_log_reader/main.c:426-432 | any two locked updates commute, wrap-around of the sums included |
| LogTally.MoveToEnd | 17_log_reader/main.c:426-432 | any update of a sequence can be made last without changing the tally |
| LogTally.FoldOfPermutation | 17_log_reader/main.c:426-432 | the tally depends on the multiset of updates, not on their order |
| LogTally.TotalMeans | 17_log_reader/main.c:426-429 | the total is the sum over the updates made to it, modulo 2^64 |
| LogTally.UrlMeans | 17_log_reader/main.c:87-118 | a URL has an entry if and only if an update names it, and the entry is the sum of those updates modulo 2^64 |
| LogTally.RefMeans | 17_log_reader/main.c:120-151 | a referer has an entry if and only if an update names it, and the entry is the number of those updates |
| LogTally.SumsOfLines | 17_log_reader/main.c:421-436 | the updates a file gives rise to add up to what its lines add up to: bytes in all, bytes of a URL, lines of a referer |
| LogTally.AllOpsIs | 17_log_reader/main.c:414-438 | the updates of a sequential pass are those of the lines of all files that can be opened |
| LogTally.SequentialReports | 17_log_reader/main.c:421-436 | the tally of a sequential pass: the total is the byte sum of all lines, a URL has an entry if and only if a line with bytes has it, with its byte sum, and a referer if and only if a line has it, with the number of lines |
| LogTally.MapSumAfterUrl | 17_log_reader/main.c:87-118 | counting bytes for a URL adds them to the sum over the whole map |
| LogWorkers.QueueStepConserves | 17_log_reader/main.c:398-412 | taking an index, waiting or leaving neither loses nor repeats an update |
| LogWorkers.UpdateConserves | 17_log_reader/main.c:425-432 | an update made is an update no longer pending |
| LogWorkers.StepKeepsQueueInv | 17_log_reader/main.c:397-412 | every step keeps the queue's flag, index and waiters consistent, each taken index with its one taker |
| LogWorkers.StepKeepsInv | 17_log_reader/main.c:395-440 | after every step each update of each file is either made or pending, never both, never twice |
| LogWorkers.RunKeepsInv | 17_log_reader/main.c:395-440 | the invariant holds in every state of every run |
| LogWorkers.ResultIsSequential | 17_log_reader/main.c:590-604 | once all workers are joined the tally is that of a sequential pass over the files, and reports the lines of the files, for any number of threads and any schedule |
| LogWorkers.CountsBounded | 17_log_reader/main.c:120-151 | at every moment of a run the count of a referer is at most the number of its lines |
| LogWorkers.CountsFitIff | 17_log_reader/main.c:120-151 | no count of a referer exceeds an int during a complete run if and only if no referer has more lines than an int can count |
| LogWorkers.WaitsOnlyForMain | 17_log_reader/main.c:399-401 | a worker waits only when there are no files and main has not announced it yet |
| LogWorkers.TakenBeforeExit | 17_log_reader/main.c:402-411 | in every state each index below next has been taken exactly once and no other has; when a worker has exited next is the number of files |
| LogWorkers.StepProgress | 17_log_reader/main.c:395-440 | every step of a worker or of main, but for a spurious wakeup, uses up a measure |
| LogWorkers.RunBounded | 17_log_reader/main.c:395-440 | a run has no more steps than the measure at its start, plus two for each spurious wakeup |
| LogWorkers.NoDeadlock | 17_log_reader/main.c:590-604 | until main is done some thread can make a step that is no spurious wakeup |
| LogWorkers.FileOpsAreWholeLines | 17_log_reader/main.c:425-432 | a file's updates always pair the total with its URL |
| LogWorkers.UpdateKeepsGap | 17_log_reader/main.c:426-432 | each of the three updates keeps the total equal to the URL sums plus the bytes still on their way |
| LogWorkers.TotalAgainstUrls | 17_log_reader/main.c:426-431 | at every moment of every run the total is the sum of the URL map plus the bytes of workers between the two updates, modulo 2^64 |
| ChainMap.HashMap.constructor | 17_log_reader/main.c:67-85 | an empty map with the given number of buckets |
| ChainMap.Hash | 17_log_reader/main.c:59-65 | the loop computes the recursively defined hash |
| ChainMap.HashIs | 17_log_reader/main.c:59-65 | the hash is the polynomial in 33 of the characters, as signed numbers, modulo 2^64 |
| ChainMap.HashOfOne | 17_log_reader/main.c:59-65 | the hash of each one-byte text |
| ChainMap.HashMap.Find | 17_log_reader/main.c:91-99 | the walk returns the entry of the key or proves that the chain has none |
| ChainMap.HashMap.Prepend | 17_log_reader/main.c:100-116 | a new entry in front of its chain adds exactly the key and keeps every chain, old entries in place |
| ChainMap.HashMap.Assign | 17_log_reader/main.c:93-96 | a new value in an entry changes the map at its key and nowhere else, as no other entry has the key |
| ChainMap.HashMap.Update | 17_log_reader/main.c:89-117 | the map changes at the key and nowhere else, by update in place or by a new entry |
| ChainMap.HashMap.Collect | 17_log_reader/main.c:467-520 | the array lists every key of the map exactly once, with its value |
| ChainMap.UrlMapAdd | 17_log_reader/main.c:87-118 | the heap map changes as the URL update of the tally says; zero bytes leave no trace |
| ChainMap.RefMapInc | 17_log_reader/main.c:120-151 | the heap map changes as the referer update of the tally says |
| ChainMap.EachKeyOnce | 17_log_reader/main.c:471-486 | buckets that hold only their own keys, each once, list no key twice |
| Zip.FindEocdr | 03_types_homework-12926-ac0783/main.c:169-207 | the end record with the shortest matching comment, or none if there is no match among all 65536 lengths |
| Zip.ReadCfh | 03_types_homework-12926-ac0783/main.c:89-132 | reading field by field gives the entry of section 4.3.12 at the offset, exactly when signature and lengths fit, its local header offset corrected in wrapping arithmetic |
| Zip.ReadLfh | 03_types_homework-12926-ac0783/main.c:232-267 | the same for the local header of section 4.3.7 |
| Zip.ZipRead | 03_types_homework-12926-ac0783/main.c:305-379 | accepts a source exactly when its first matching end record describes a good archive, and then returns that archive |
| ZipBytes.ReadsIff | 03_types_homework-12926-ac0783/main.c:305-379 | a source reads as archive z if and only if its first end record, byte by byte, is on one volume with equal counts and describes z, and every directory entry is acceptable |
| ZipBytes.EntryOkIff | 03_types_homework-12926-ac0783/main.c:341-374 | an entry is accepted if and only if, byte by byte, its signature stands, it is not encrypted, stored or deflated, of equal sizes if stored, on the first volume, inside the source, of a name without NUL, and its local header with the data stands inside the source |
| ZipBytes.DirectoryEndIs | 03_types_homework-12926-ac0783/main.c:341-376 | the walk of the reader is the walk over acceptable entries |
| ZipBytes.EndRecordIff | 03_types_homework-12926-ac0783/main.c:181-199 | an end record matches if and only if the four signature bytes stand at its place and its length field gives the comment |
| Zip.FirstMatchDecides | 03_types_homework-12926-ac0783/main.c:176-206 | only the first matching end record decides what the source reads as |
| Zip.ReadMembers | 03_types_homework-12926-ac0783/main.c:341-378 | an accepted archive has a sound directory walk and its comment ends at the end of the source |
| Zip.ZipMember | 03_types_homework-12926-ac0783/main.c:382-415 | both reads succeed and all assertions hold; the member is the next one of the directory, its slices inside the source |
| ZipBytes.ViewIs | 03_types_homework-12926-ac0783/main.c:391-415 | each field shown of an accepted entry, by its bytes in the source |
| Zip.ListZip | 03_types_homework-12926-ac0783/main.c:460-491 | the walk from begin meets end exactly and lists the members of the directory; it fails only if nothing reads |
| Zip.ListedCount | 03_types_homework-12926-ac0783/main.c:333-376 | as many members are listed as the end record counts |
| Zip.WalkLength | 03_types_homework-12926-ac0783/main.c:483 | the iterator equals the end only after the last member |
| Zip.LfhOffsetBehind | 03_types_homework-12926-ac0783/main.c:120 | cutting to 32 bits and wrapping at 64, a prefix moves the corrected local offset by its length |
| Zip.EocdrBehind | 03_types_homework-12926-ac0783/main.c:181-195 | behind a prefix the same end record is read, with its computed directory offset moved |
| Zip.MembersBehind | 03_types_homework-12926-ac0783/main.c:341-376 | behind a prefix the directory walk accepts the same entries and shows the same names, data and comments |
| Zip.ReadsBehind | 03_types_homework-12926-ac0783/main.c:305-379 | an accepted source is accepted behind any prefix while the whole stays below 2^32 bytes, with the same members and offsets moved by the prefix, zip_file_offset modulo 2^64 |
| Zip.AcceptedBehindIff | 03_types_homework-12926-ac0783/main.c:305-379 | a source is accepted by itself if and only if it is accepted behind a prefix with end record, directory and local headers all behind the prefix |
| Zip.MembersOwn | 03_types_homework-12926-ac0783/main.c:341-376 | a directory accepted behind a prefix that points to nothing in the prefix is accepted without it |
| ZipWriter.LocalReads | 03_types_homework-12926-ac0783/main.c:232-267 | a written local header reads back and leads to the data |
| ZipWriter.CentralReads | 03_types_homework-12926-ac0783/main.c:89-132 | a written directory entry reads back with name and comment in place |
| ZipWriter.DirectoryReads | 03_types_homework-12926-ac0783/main.c:341-376 | the directory of a written archive is walked to its end and lists the written members |
| ZipWriter.WriteReads | 03_types_homework-12926-ac0783/main.c:305-415 | a written archive reads back as its members, in order |
| ZipWriter.RoundTripBehindPrefix | 03_types_homework-12926-ac0783/main.c:305-415 | so does a written archive behind any prefix |
| ZipWriter.TailNeedsPrefix | 03_types_homework-12926-ac0783/main.c:305-379 | the directory and end record of any written archive with members are no archive, but read as one behind the rest of it |
| RingBuffer.RingBuffer.SetSize | 27_driver/ringbuf_driver.c:35-73 | sizes out of range change nothing; otherwise the buffer is new and empty, or gone when memory runs out |
| RingBuffer.RingBuffer.MakeRoom | 27_driver/ringbuf_driver.c:118-122 | the oldest bytes go, and only as many as needed |
| RingBuffer.RingBuffer.Place | 27_driver/ringbuf_driver.c:124-136 | two copies across the wrap append the input; a failed one leaves the contents alone, as only free slots are touched |
| RingBuffer.RingBuffer.Write | 27_driver/ringbuf_driver.c:109-137 | success: the last size bytes of old and new; failed copy: a suffix of the old; the writing position stays count past the reading position |
| RingBuffer.RingBuffer.Peek | 27_driver/ringbuf_driver.c:145-165 | the oldest min(len, count) bytes; 0 when there are none or a copy that is needed fails, with no more than a prefix of the oldest bytes delivered |
| RingBuffer.RingBuffer.Discard | 27_driver/ringbuf_driver.c:171-177 | drops the oldest len bytes, or nothing if there are fewer |
| RingBuffer.RingBuffer.DevRead | 27_driver/ringbuf_driver.c:196-212 | what read returns has left the buffer and moved the file position; a failed copy or an interrupted wait leaves both alone |
| RingBuffer.RingBuffer.DevWrite | 27_driver/ringbuf_driver.c:214-225 | an interrupted wait does nothing; else one stored write if and only if the copies needed go through, and one rejected write if not |
| RingBuffer.Evicts | 27_driver/ringbuf_driver.c:114-136 | dropping first and appending then amounts to keeping the last size bytes |
| RingBuffer.WriteKeeps | 27_driver/ringbuf_driver.c:114-136 | which old and which new bytes a write keeps, by position |
| RingBuffer.StoreAppends | 27_driver/ringbuf_driver.c:124-131 | bytes stored at the writing position do not touch the contents and extend them |
| RingBuffer.TwoStoresAppend | 27_driver/ringbuf_driver.c:124-131 | two parts stored up to the end of the array and from its start extend the contents by both |
| RingBuffer.WriteKeepsInv | 27_driver/ringbuf_driver.c:109-137 | a successful write keeps the residents a suffix, and reads plus residents a subsequence, of what was written |
| RingBuffer.SubsequencePicks | 27_driver/ringbuf_driver.c:109-177 | a subsequence is picked out by increasing positions |
| RingBuffer.FaultKeepsInv | 27_driver/ringbuf_driver.c:118-131 | so does a failed one, although it may have evicted bytes |
| RingBuffer.RunKeepsInv | 27_driver/ringbuf_driver.c:109-225 | over any run of read and write events, failures included, reads plus residents are a subsequence of the writes and residents a suffix |
| RingBuffer.LosslessIff | 27_driver/ringbuf_driver.c:109-225 | over any run of events nothing written is missing if and only if no write ever found too little space |
| RingBuffer.Drive | 27_driver/ringbuf_driver.c:109-225 | any list of read and write calls on an empty buffer, with any interruptions and failed copies: what was read and is resident is picked out of the stored bytes by increasing positions, the residents are their last bytes, nothing is missing if and only if no write found too little space, and without failures the stored bytes are all inputs |
| HttpConnection.DecimalParses | 23_http_server/main.c:190-201 | the announced length parses back to the length |
| HttpConnection.HeaderFits | 23_http_server/main.c:190-216 | a header with its error body fits the send buffer |
| HttpConnection.HeaderReceived | 23_http_server/main.c:190-201 | a client that splits at line ends reads the four lines and, behind the first empty line, exactly the body |
| HttpConnection.HeaderAnnounces | 23_http_server/main.c:190-216 | a client that looks for them finds the status code, the length of the body, and the body |
| HttpConnection.Connection.constructor | 23_http_server/main.c:413-418 | a connection that has sent nothing |
| HttpConnection.Connection.CloseConnection | 23_http_server/main.c:124-135 | file and socket are closed; what is on the wire stays a prefix |
| HttpConnection.Connection.BuildHttpStatus | 23_http_server/main.c:190-201 | the buffer holds the header, cut where the terminator has to stand, and the length to send is that of the whole header |
| HttpConnection.Connection.SendError | 23_http_server/main.c:203-216 | if the header fits, the stream is the header followed by the body, the body only when it fits too; then a client finds the code, the announced length and the body |
| HttpConnection.Connection.SendFile | 23_http_server/main.c:278-285 | if the header fits, the stream is the header followed by the file, and a client finds code 200, the size of the file and the file |
| HttpConnection.Connection.Offer | 23_http_server/main.c:317-329 | what the socket took is on the wire, the rest is still buffered, in order |
| HttpConnection.Connection.LoadBlock | 23_http_server/main.c:373-376 | the next bytes of the file enter the empty buffer, none skipped or repeated |
| HttpConnection.Connection.StartFile | 23_http_server/main.c:331-334 | once the header has gone out the file follows, from its first byte |
| HttpConnection.Connection.Finish | 23_http_server/main.c:335-338 | the connection closes as finished with the whole stream on the wire |
| HttpConnection.Connection.SendBlock | 23_http_server/main.c:358-387 | at the end of the file the connection finishes with the whole stream sent; otherwise one block is read and offered |
| HttpConnection.Connection.SendHeader | 23_http_server/main.c:316-339 | the header part goes on to the file exactly when the send empties the buffer and a file is open; without a file it finishes |
| HttpConnection.Connection.SendContent | 23_http_server/main.c:341-388 | the file part: a rest in the buffer goes first, then one block is read and offered, or the connection finishes at the end of the file |
| HttpConnection.Connection.HandleWrite | 23_http_server/main.c:312-389 | for every outcome of the two sends and the read: what is on the wire, buffered and unread still is the stream, and which state follows |
| HttpConnection.Serve | 23_http_server/main.c:312-389 | any sequence of write events puts a prefix of the stream on the wire, all of it when finished; if nothing breaks it does finish once first sends have taken something more than 2 * left + 1 times, left being the bytes not yet on the wire, however often sends block |
| HttpConnection.ServeOne | 23_http_server/main.c:312-389 | an event whose first send takes something finishes the connection, sends a byte more, or fills the empty buffer |
| Crc32.Crc32TabIs | 16_crc32/main.c:10-54 | each table word is what eight steps of bitwise reflected division by 0xEDB88320 leave of its index |
| Crc32.Shift8Splits | 16_crc32/main.c:62 | eight division steps act on the low byte alone and bring the other three down |
| Crc32.TableStepIsByteStep | 16_crc32/main.c:62 | for all registers and bytes the table-driven update is the bitwise one |
| Crc32.Crc32Raw | 16_crc32/main.c:56-64 | the loop leaves the register of the bitwise definition |
| Crc32.RegisterConcat | 16_crc32/main.c:96-106 | the register after two pieces is that after both in one |
| Crc32.FileCrc | 16_crc32/main.c:85-120 | for any page size and length the chunked pass gives the CRC of the whole file; the mappings lie at multiples of the page size and cover the file, one after the other |
| Crc32.WordFeed | 16_crc32/main.c:57-64 | feeding the bytes of a word divides register and word together |
| Crc32.OwnCrcLeavesResidue | 16_crc32/main.c:56-119 | a file followed by its own little-endian CRC always leaves 0xDEBB20E3 |
| Crc32.CheckValue | 16_crc32/main.c:56-119 | the CRC of the digits 1 to 9 is 0xCBF43926 |
| Crc32Burst.ByteFeed | 16_crc32/main.c:62 | the byte update is eight single-bit updates, least significant bit first |
| Crc32Burst.FileFeed | 16_crc32/main.c:56-64 | the register after a file is the register after its bits |
| Crc32Burst.MeetBackwards | 16_crc32/main.c:56-64 | registers that meet after n bits, n up to 32, differed in n low bits at most; from equal registers the bits were equal |
| Crc32Burst.FeedKeepsApart | 16_crc32/main.c:56-64 | the same bits never make different registers equal |
| Crc32Burst.BurstDetected | 16_crc32/main.c:56-64 | different files of equal length that agree outside a window of at most 32 bits have different CRCs |
| Codepages.Cp1251TableBack | 04_types_contd_homework-12926-ae2162/main.c:14-30 | each table entry but the 0 of byte 0x98 lies above ASCII and below the surrogates, and an inverse table leads back to its byte |
| Codepages.Koi8rTableBack | 04_types_contd_homework-12926-ae2162/main.c:32-49 | the same for KOI8-R |
| Codepages.Iso88595TableBack | 04_types_contd_homework-12926-ae2162/main.c:51-68 | the same for ISO-8859-5 |
| Codepages.TableBack | 04_types_contd_homework-12926-ae2162/main.c:14-80 | every entry of every table leads back to its byte, so none occurs twice |
| Codepages.TableText | 04_types_contd_homework-12926-ae2162/main.c:14-68 | every table entry is the character that a chart of the codepage shows |
| Utf8.Utf8Encode | 04_types_contd_homework-12926-ae2162/main.c:178-218 | the bytes of the code point with a terminator, and their number, in an array with that much room; beyond the last code point U+FFFD is stored but no byte counted |
| Utf8.EncodeDecodes | 04_types_contd_homework-12926-ae2162/main.c:178-218 | the bytes of a code point decode to it, whatever follows |
| Utf8.DecodeEncodes | 04_types_contd_homework-12926-ae2162/main.c:178-218 | whatever a strict decoder of RFC 3629 accepts as a character is the encoder's output for it |
| Utf8.DecodeIff | 04_types_contd_homework-12926-ae2162/main.c:178-218 | a string decodes to given points if and only if they are code points and it is their encoding |
| Utf8.EncodeRoundTripIff | 04_types_contd_homework-12926-ae2162/main.c:178-218 | utf8_encode is undone by a strict decoder if and only if its argument is a code point and no surrogate |
| Utf8.SurrogateEncoded | 04_types_contd_homework-12926-ae2162/main.c:193-200 | the surrogate D800 is encoded as ED A0 80, which a strict decoder refuses; 110000 gets no byte |
| CodepageConverter.CodepageToUtf8 | 04_types_contd_homework-12926-ae2162/main.c:70-98 | for every C string the array holds the encoding of the mapped points and a terminator, nothing behind it is touched, and the length returned is the bytes written; an unknown name writes nothing |
| CodepageConverter.NamesKnown | 04_types_contd_homework-12926-ae2162/main.c:71-80 | exactly three names are known |
| CodepageConverter.Cp1251Letters | 04_types_contd_homework-12926-ae2162/main.c:71-72 | under the name cp1251 the bytes from C0 on are U+0410 to U+044F |
| CodepageConverter.Koi8rLetters | 04_types_contd_homework-12926-ae2162/main.c:73-74 | under the name koi8-r the bytes C0 to DF are small letters, each 0x20 below its capital in the code and above it in Unicode |
| CodepageConverter.Iso88595Is | 04_types_contd_homework-12926-ae2162/main.c:75-76 | under the name iso-8859-5 every byte, by formula |
| CodepageConverter.LetterA | 04_types_contd_homework-12926-ae2162/main.c:71-76 | the byte of U+0430 under each of the three names |
| CodepageConverter.ConvertByte | 04_types_contd_homework-12926-ae2162/main.c:83-95 | one byte, mapped or copied, becomes the encoding of its point |
| CodepageConverter.ConvertedDecodes | 04_types_contd_homework-12926-ae2162/main.c:82-97 | the output decodes to exactly the mapped code points in order |
| CodepageConverter.ConvertedLength | 04_types_contd_homework-12926-ae2162/main.c:82-97 | two bytes per character, plus one for each long, minus one for each short |
| CodepageConverter.RoomNeeded | 04_types_contd_homework-12926-ae2162/main.c:168-171 | 3n + 1 bytes always suffice for a text of n bytes; the caller's array of twice the file size suffices if and only if long characters are fewer than short ones and twice the bytes after the text |
| CodepageConverter.CallersArrayTooSmall | 04_types_contd_homework-12926-ae2162/main.c:168-171 | the KOI8-R file 80 80 00 needs seven bytes and gets an array of six |
| CodepageConverter.ConvertedInjective | 04_types_contd_homework-12926-ae2162/main.c:82-97 | for each codepage C strings with the same output are the same |
| CodepageConverter.InnerZeroIff | 04_types_contd_homework-12926-ae2162/main.c:82-97 | the output contains a NUL before its end if and only if the text is cp1251 and holds the byte 0x98 |

## Left out

- Files, sockets, mappings, the event queue and kernel registration: their results are parameters (bytes, short counts, would-block, failed copies).
- Allocation failure, freeing and the exit paths, except where a failure's result is part of a claim: a message without memory, a resize without memory, a failed user copy.
- HashTable.Hashmap.constructor: load factor and multiplier are reals, so the rounding of float products is not modelled, nor the overflow of the limit's conversion to int for tables of 2^31 slots and more.
- HashTable.Put: the same free slot is required. Values are unbounded, where the counts of the code are 64-bit; a count would need 2^64 words to wrap.
- HashTable.RehashUp: the array doubles in exact arithmetic. With floats the clause "at least doubles" can fail by rounding from 16777217 slots on, where 16777217 * 2.0f is 33554432. The release of the old array and record, and so the sharing of entries between old and new map, is not modelled; entries are values here.
- HashTable.GrownLimit: real products, so the same rounding applies.
- HashTable.LimitBelowSize: real products, and no overflow of the conversion to int.
- HashTable.LimitAsAskedIff: real products too.
- HashTable.RawPut: requires a free slot when it is to probe for one, as the loop would not end without (`ProbeEndsIffNotFull`, `FullTable`).
- WordCount.CountWords: the file is given as its bytes; the 128-byte word buffer is a sequence of that length.
- WordCount.PrintDescending: a slot stands for the key pointer in it, so two entries do not share one pointer.
- LoggerProtocol.NothingLost: assumes that no logging call begins once the writer thread has ended, as the test of the file at line 492 is made without the lock; `Drain` shows the tail pointer such a call would follow.
- LoggerProtocol.ShutdownFlushes: message texts are as accepted; their formatting and stack traces are not modelled (lines 223-249), only whether there was memory for it. A level set while messages are queued changes no more than the formatting.
- LoggerQueue: the queue's critical sections as methods; their interleaving is in LoggerProtocol, which keeps the queue as a sequence of texts.
- LogTally.RefMeans: counts of referers are unbounded, where the code has an int; `CountsFitIff` says when that makes no difference.
- LogTally.SequentialReports: the same unbounded counts.
- LogWorkers.ResultIsSequential: the same unbounded counts. Each critical section is one step and the maps are those of LogTally; ChainMap relates them to the heap. Main starts at least one worker (lines 539-546).
- ChainMap.RefMapInc: the same unbounded count.
- Parsing of log lines, URL decoding, directory listing, sorting and the printing of the top entries.
- ChainMap.HashMap: one class with a value type serves UrlMap and RefMap, which differ in the update alone. Null keys, which the code ignores, are not modelled, as a parsed line has both texts.
- Zip.ZipMember: date and time stay in DOS form, as dos2ctime needs the local time zone; the printing of names and comment is left out.
- Zip.ZipRead: offsets are unbounded in the walk, where the code has 64 bits; a source is far shorter.
- RingBuffer.RingBuffer.SetSize: parsing of the parameter and an interrupted wait for the mutex; the mutex makes each call one step. Seeking, ioctl and procfs code is left out.
- HttpConnection.Connection.BuildHttpStatus: the sends after a header that does not fit, which would read past the buffer; `HeaderFits` shows that the server's short texts never come near.
- HttpConnection.Serve: one connection from the moment its response is decided; receiving and routing requests, MIME lookup and the connection table are left out. The file does not change while it is sent.
- Crc32.FileCrc: the page size is given, with the default of 4096 when the system does not tell it left to the caller.
- CodepageConverter.CodepageToUtf8: requires an array that holds the output and its terminator, which `RoomNeeded` shows the caller's array not always to be; the file read without a terminator at its end (lines 114-139) is not modelled, the input has its NUL.
- The spectral wave model, the database statistics, the games, lists, GTK, curl, telnet and daemon programs of the repository.
