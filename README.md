# LogProcessor, modelled in Dafny

A model of the `LogProcessor` of `log_processor.py` and of the `FileHandler`
that feeds it. The processor tails the log files of a watched directory: it
keeps, per path, the offset of its last read (`input_logs`), reads what was
appended since, and buffers the new lines in a cache. When more than
`LOG_SYNC_TIME` (10 seconds) has passed since the last sync, it swaps the
cache out, sorts it by the number each line carries between `<` and `>`, and
pops the sorted list from its tail into the append-only `processed_output.log`.
The sync time moves only when that write succeeds.

Modules, one per concern:

- `LineSplit` (`line_split.dfy`): `readlines()` as `SplitLines`, with its
  inverse `Concat`; each line keeps its `'\n'`, only the last may lack one.
- `KeyExtraction` (`line_key.dfy`): the first match of the greedy pattern
  `<(.*)?>` (`KeyText`, where `.` does not cross a `'\n'`) and the line's key
  (`LineKey`), the captured text handed to a numeric parser that is a parameter.
- `StableSort` (`stable_sort.dfy`): a stable sort into non-increasing key
  order for any key function (`SortDesc`), as `sorted(..., reverse=True)` does
  it, and the order in which repeated `pop()` takes a list's elements (`Reversed`).
- `SortOrder` (`sort_order.dfy`): `sort_list` as `SortList`, that sort applied
  with the lines' keys, failing when a line has no key.
- `LogProcessing` (`log_processor.dfy`): the `LogProcessor` class, with fields
  `inputLogs`, `cache`, `lastSyncTime`, `outputLog` (the output file's lines)
  and the parser; `should_sync` as the pure `ShouldSync`; the `FileHandler`
  class routing created, modified and deleted events.

How the environment enters the model:

- A read of a file is given as a `ReadResult`: it fails before a cursor is
  stored (`ReadFails`: `open`, `seek`, `readlines` or `tell` raised), succeeds
  on the file's text (`ReadOk(text)`), or stores the cursor and then raises
  when the `with` block closes the file (`ReadCloseFails(text)`). Characters
  stand for bytes.
- Whether an event's path is a regular file (`os.path.isfile`) is a boolean of the event.
- Time (`datetime.utcnow()`) is an integer number of microseconds, so
  `LOG_SYNC_TIME` is `10 * 1_000_000`. The code reads the clock twice: in
  `should_sync` (log_processor.py:58), passed in as `now`, and after the
  output file is closed (log_processor.py:104), passed in as `syncTime`, which
  is what a successful sync stores as the last sync time.
- A write to the output log is given a `WriteFault`: none, `open` raises, the
  write of the i-th popped line raises, or `close` raises.
- `process_log` returns a `ProcessOutcome` telling which of its paths it took:
  nothing due, synced, write error (reported and swallowed), or the sort raised
  (that exception leaves `process_log`).
- The tail of `process_log` (log_processor.py:73-77) is its own method,
  `SyncIfDue`, so that each half is verified on its own; `ProcessLog` calls it
  at the same point and its contract is the combination of both halves.

Behaviour of the code that the model keeps and states:

- The docstrings (log_processor.py:13, log_processor.py:87) say the batch is
  sorted ascending, and the output is indeed in non-decreasing key order: the
  list is sorted descending and popped from its tail. Lines of equal key reach
  the output in the REVERSE of their cache order: `sorted(..., reverse=True)`
  keeps equal keys in cache order and the pop loop then reverses them
  (`FlushOrder`, `TwoLineFlush`).
- The key text runs from the first `<` to the LAST `>` of the line, not to the
  first `>` after it: the pattern is greedy. A line such as `a<1> b<2>` gives
  the text `1> b<2`, which the parser rejects, so the sort raises
  (`KeyTextGreedy`).
- A drained batch whose sort raises or whose write fails is not put back: the
  cache is already empty (`SyncStep`, `SyncStepKeepsOutput`).
- When closing an input file raises after `tell()` was stored
  (log_processor.py:120-127), the cursor has moved past the lines just read
  but `lines` is reset to `[]`: those lines never reach the cache
  (`CloseFailureSkipsLines`).

## Model

| member | source | states |
|---|---|---|
| `LineSplit.SplitLines` | log_processor.py:122 | `readlines()`: the text cut after each `'\n'`; its properties are the three rows that follow |
| `LineSplit.SplitThenConcat` | log_processor.py:122 | the lines `readlines()` returns join back into exactly the text read from the offset |
| `LineSplit.SplitWellFormed` | log_processor.py:122 | every returned line is non-empty and keeps its `'\n'`; only the last line may lack one and no line holds a `'\n'` before its end |
| `LineSplit.ConcatThenSplit` | log_processor.py:122 | splitting the concatenation of such lines gives those lines back, so the split is the unique one |
| `KeyExtraction.KeyText` | log_processor.py:90-91 | the group of the first match of `<(.*)?>`, or none; pinned down by `KeyTextGreedy` and `KeyTextExists` |
| `KeyExtraction.LineKey` | log_processor.py:90-91 | the key function: the first match's group handed to the numeric parser, absent (the lambda raises) when there is no match or the parser rejects it; `SortList` states when the sort raises because of it |
| `KeyExtraction.KeyTextGreedy` | log_processor.py:90-91 | on a line, the first match of `<(.*)?>` captures the text between the first `<` and the last `>`, when that `>` follows the `<` |
| `KeyExtraction.KeyTextExists` | log_processor.py:90-91 | on a line, the pattern matches (so `findall(...)[0]` does not raise) exactly when some `<` is followed by a `>` |
| `StableSort.Reversed` | log_processor.py:100-102 | popping a list from its tail `len` times yields its elements last to first: element k of the result is element n-1-k |
| `StableSort.SortDesc` | log_processor.py:91 | `sorted(..., reverse=True)` as a stable insertion sort; its properties are `SortDescPermutation`, `SortDescDescending` and `SortDescStable` |
| `StableSort.SortDescPermutation` | log_processor.py:91 | the sort keeps every element, each as often as before |
| `StableSort.SortDescDescending` | log_processor.py:91 | with `reverse=True` the keys never increase along the sorted list |
| `StableSort.SortDescStable` | log_processor.py:91 | elements of equal key keep their relative order (the sort is stable, also in reverse) |
| `StableSort.WithKeyReversed` | log_processor.py:100-102 | popping reverses the relative order of the elements of each key |
| `StableSort.ReversedAscending` | log_processor.py:100-102 | popping a non-increasing list yields a non-decreasing sequence |
| `SortOrder.SortList` | log_processor.py:85-91 | the sort yields a list exactly when every line has a key (otherwise the key function raises); the list is as long as the batch |
| `SortOrder.SortListOrders` | log_processor.py:91 | the sorted batch is a permutation of the batch, in non-increasing key order, and lines of equal key keep their batch order (stable `reverse=True` sort) |
| `SortOrder.FlushOrder` | log_processor.py:91-102 | the lines the pop loop emits are the batch's lines, each as often as in the batch, in non-decreasing key order, lines of equal key in the reverse of their batch order |
| `SortOrder.TwoLineFlush` | log_processor.py:91-102 | two keyed lines of one batch are written in key order, and the later-cached one first when their keys are equal |
| `LogProcessing.ShouldSync` | log_processor.py:53-60 | `should_sync`; its behaviour at the interval's edge and over time is stated by `ShouldSyncBoundary` and `ShouldSyncMonotone` |
| `LogProcessing.ShouldSyncBoundary` | log_processor.py:53-60 | with `LOG_SYNC_TIME` of 10 s, a sync is not due exactly 10 s (or 9.999 s) after the last one and is due 1 µs (or 1 ms) later |
| `LogProcessing.ShouldSyncMonotone` | log_processor.py:58 | once a sync is due it stays due until the last sync time moves |
| `LogProcessing.TailLines` | log_processor.py:115-128 | a read returns well-formed lines that join into the file's text from the offset on; nothing when the offset is at or past the end or the read fails |
| `LogProcessing.CursorsAfterRead` | log_processor.py:119-128 | after a successful read the path's cursor is at least the old offset and the file length; a failed read leaves the map as it was; other paths keep their entries |
| `LogProcessing.ReadsCompose` | log_processor.py:115-123 | for any cursor map and path, two reads of a file that only grew return its text from the first offset on, each byte once: the first read leaves the cursor where the second starts |
| `LogProcessing.CloseFailureSkipsLines` | log_processor.py:119-127 | when closing the file raises after `tell()` was stored, no line is returned, the cursor is at the end of the file, and a later read of the same text returns nothing either, although the skipped text was not empty |
| `LogProcessing.SyncStep` | log_processor.py:73-106 | the sync half of `process_log`: not due, sort raised, or written up to the fault, with the cache drained whenever due; its properties are `SyncStepKeepsOutput` and `SyncedAppendsBatch` |
| `LogProcessing.SyncStepKeepsOutput` | log_processor.py:73-106 | a sync step never touches earlier output; the sync time moves to the clock read after the write only when the batch was written, after which (that clock not being behind the first reading) no sync is due; the cache is drained exactly when a sync was due; the sort raises exactly when a sync is due and a line lacks a key |
| `LogProcessing.SyncedAppendsBatch` | log_processor.py:73-103 | after a successful sync the output log keeps its earlier content and gains exactly the batch's lines, in non-decreasing key order, equal keys in reverse cache order |
| `LogProcessing.LogProcessor.constructor` | log_processor.py:38-42 | a new processor has no cursors, an empty cache, the start time as last sync time and the output file's existing content |
| `LogProcessing.LogProcessor.Cursor` | log_processor.py:115-118 | the offset the next read starts from: the stored one, 0 when there is none (or it is 0); `RemoveInputLog` and `GetLastLines` state their effect on it |
| `LogProcessing.LogProcessor.RemoveInputLog` | log_processor.py:44-51 | afterwards the path's next read starts at 0 and every other path's entry is unchanged; an entry whose offset is 0 stays in the map |
| `LogProcessing.LogProcessor.GetLastLines` | log_processor.py:108-128 | the read starts at the stored offset or 0; on success it returns the rest of the file as lines and the cursor becomes the file length, or stays put when it lay past the end; when the read fails it returns nothing and the cursors are unchanged; when only closing the file fails the cursor moves as on success but nothing is returned; the cursor never decreases |
| `LogProcessing.LogProcessor.SwapCache` | log_processor.py:79-82 | returns exactly the previous cache and leaves the cache empty |
| `LogProcessing.LogProcessor.SyncOutputLog` | log_processor.py:93-106 | appends the sorted list popped from its tail, up to the failing step; moves the sync time to the clock read after closing the file only when no step failed; on success the list is left empty; earlier output is untouched |
| `LogProcessing.LogProcessor.ProcessLog` | log_processor.py:62-77 | the new lines of the path join the cache in order and the cursor advances as for a read; if no sync is due nothing else changes; if due, the cache ends empty, and the output gains the popped sorted batch and the sync time becomes the clock read after the write only when the sort and the write succeed |
| `LogProcessing.LogProcessor.SyncIfDue` | log_processor.py:73-77 | when a sync is due the cache is drained whatever follows; a key-less line makes the sort raise with the output and sync time untouched; otherwise the write's outcome decides the output and the sync time |
| `LogProcessing.FileHandler.constructor` | log_processor.py:132-133 | the handler owns a fresh processor in its initial state |
| `LogProcessing.FileHandler.Process` | log_processor.py:135-142 | an event on a regular file has exactly the effect of `process_log`; any other path changes nothing |
| `LogProcessing.FileHandler.OnModified` | log_processor.py:144-145 | a modified event is routed as `process` |
| `LogProcessing.FileHandler.OnCreated` | log_processor.py:147-148 | a created event is routed as `process` |
| `LogProcessing.FileHandler.OnDeleted` | log_processor.py:150-151 | a deleted event resets the path's cursor to 0, keeps every other cursor, and neither reads nor writes |

## Left out

- The watchdog `Observer`, `run_consumer`, the command-line handling and the creation of the watched directory (log_processor.py:154-170): process plumbing around a foreign library.
- Real file I/O: a read sees one snapshot of the file's text, and what a failed read or write would have reported is reduced to the failure itself. Byte-level encodings are not modelled; one character stands for one byte.
- Output buffering: when a write or `close` fails, the model takes the lines written before the failing call to be in the file; what Python's buffer actually flushes in that case is not modelled.
- Calendar and `timedelta` arithmetic: time is a plain count of microseconds.
- The numeric parse `float(...)` is a parameter of the processor that yields a real or nothing. Keys are reals, so the float keys that are not reals are outside the model: NaN, which breaks the total order the sort relies on, and the infinities, which compare totally but have no real value.
- What happens after the sort's exception leaves `process_log` (it reaches the watchdog's dispatch thread) is not modelled; the outcome `SortRaised` marks it.
- Concurrency: callbacks are taken to arrive one at a time, as the code assumes; the unlocked swap of the cache is not examined under interleaving.
- The diagnostic `print` calls.
