/**
 * The log processor: it tails input log files through a per-path cursor,
 * buffers the new lines in a cache and, once the sync interval has passed,
 * drains the cache, orders it by key and appends it to the output log.
 *
 * The file system is an input: a read sees the file's text or fails (a
 * `ReadResult`), and the output log is the sequence of lines written to it.
 * Time is a number of microseconds supplied by the caller; the clock is read
 * once before the sync (`now`) and once after the write (`syncTime`).
 */
module LogProcessing {
  import opened Wrappers
  import opened LineSplit
  import opened KeyExtraction
  import opened StableSort
  import opened SortOrder

  /** LOG_SYNC_TIME: ten seconds, in microseconds. */
  const LogSyncTime: int := 10 * 1_000_000

  /** `should_sync`: strictly more than the sync interval has passed since the last sync. */
  function ShouldSync(lastSyncTime: int, now: int): bool {
    now > lastSyncTime + LogSyncTime
  }

  /** Exactly at the interval a sync is not due; one microsecond later it is. */
  lemma ShouldSyncBoundary(lastSyncTime: int)
    ensures !ShouldSync(lastSyncTime, lastSyncTime + LogSyncTime)
    ensures !ShouldSync(lastSyncTime, lastSyncTime + 9_999_000)
    ensures ShouldSync(lastSyncTime, lastSyncTime + LogSyncTime + 1)
    ensures ShouldSync(lastSyncTime, lastSyncTime + 10_001_000)
  {
  }

  /** Once due, a sync stays due until the last sync time moves. */
  lemma ShouldSyncMonotone(lastSyncTime: int, now: int, later: int)
    requires ShouldSync(lastSyncTime, now) && now <= later
    ensures ShouldSync(lastSyncTime, later)
  {
  }

  /**
   * How a read of an input log ends. The whole of `open`, `seek`,
   * `readlines`, `tell` and the closing of the file lies in one `try`.
   */
  datatype ReadResult =
    | ReadFails               // open, seek, readlines or tell raised: no cursor is stored
    | ReadOk(text: string)    // the file, whose text is `text`, was read and closed
    | ReadCloseFails(text: string)  // the cursor was stored, then closing the file raised

  /**
   * The lines a read starting at `offset` returns: the rest of the file split
   * into lines, nothing when the offset lies past the end of the file (seek
   * past end-of-file, then `readlines()` finds nothing), nothing when the read
   * fails, including when only the closing of the file raised.
   */
  function TailLines(offset: nat, read: ReadResult): (lines: seq<string>)
    ensures WellSplit(lines)
    ensures read.ReadOk? && offset <= |read.text| ==> Concat(lines) == read.text[offset..]
    ensures !read.ReadOk? || offset >= |read.text| ==> lines == []
  {
    match read
    case ReadOk(text) =>
      if offset <= |text| then
        SplitThenConcat(text[offset..]);
        SplitWellFormed(text[offset..]);
        SplitLines(text[offset..])
      else []
    case _ => []
  }

  /**
   * The cursor map after a read of `path` starting at `offset`: the position
   * `tell()` reports (the end of the file, or the offset when that lay past
   * it), also when closing the file raised afterwards; the map untouched when
   * the read itself failed.
   */
  function CursorsAfterRead(cursors: map<string, nat>, path: string, offset: nat, read: ReadResult): (r: map<string, nat>)
    ensures read.ReadFails? ==> r == cursors
    ensures !read.ReadFails? ==> path in r && r[path] >= offset && r[path] >= |read.text|
    ensures forall q :: q != path ==> (q in r <==> q in cursors) && (q in r ==> r[q] == cursors[q])
  {
    match read
    case ReadFails => cursors
    case _ => cursors[path := if offset <= |read.text| then |read.text| else offset]
  }

  /**
   * Reading a file that only grew, in two steps, returns its text from the
   * first offset on, each byte once: the first read ends where the second starts.
   */
  lemma ReadsCompose(cursors: map<string, nat>, path: string, offset: nat, first: string, second: string)
    requires offset <= |first| <= |second| && first == second[..|first|]
    ensures var cursor := CursorsAfterRead(cursors, path, offset, ReadOk(first))[path];
      && cursor == |first|
      && Concat(TailLines(offset, ReadOk(first)) + TailLines(cursor, ReadOk(second))) == second[offset..]
  {
    ConcatAppend(TailLines(offset, ReadOk(first)), TailLines(|first|, ReadOk(second)));
    assert second[offset..] == first[offset..] + second[|first|..];
  }

  /**
   * When closing the file raises after the cursor was stored, the lines read
   * are dropped and the next read starts past them: a later read of the same
   * text returns nothing, so those lines never reach the cache.
   */
  lemma CloseFailureSkipsLines(cursors: map<string, nat>, path: string, offset: nat, text: string)
    requires offset < |text|
    ensures TailLines(offset, ReadCloseFails(text)) == []
    ensures var cursor := CursorsAfterRead(cursors, path, offset, ReadCloseFails(text))[path];
      && cursor == |text|
      && TailLines(cursor, ReadOk(text)) == []
      && TailLines(offset, ReadOk(text)) != []
  {
  }

  /** How an attempt to append to the output log can fail. */
  datatype WriteFault =
    | NoFault
    | OpenFails               // open(..., 'a+') raises: nothing is popped or written
    | WriteFails(index: nat)  // the write of the index-th popped line raises
    | CloseFails              // every line is written, then close() raises

  /** The write of a batch of `n` lines runs to the end without an exception. */
  predicate WriteSucceeds(fault: WriteFault, n: nat) {
    fault.NoFault? || (fault.WriteFails? && fault.index >= n)
  }

  /** How many popped lines reach the output log before the fault. */
  function Written(fault: WriteFault, n: nat): (k: nat)
    ensures k <= n
    ensures WriteSucceeds(fault, n) ==> k == n
  {
    match fault
    case NoFault => n
    case OpenFails => 0
    case WriteFails(i) => if i < n then i else n
    case CloseFails => n
  }

  /** How many lines are popped off the list before the fault. */
  function Popped(fault: WriteFault, n: nat): (k: nat)
    ensures Written(fault, n) <= k <= n
    ensures WriteSucceeds(fault, n) ==> k == n
  {
    match fault
    case NoFault => n
    case OpenFails => 0
    case WriteFails(i) => if i < n then i + 1 else n
    case CloseFails => n
  }

  /** What a call of `process_log` did. */
  datatype ProcessOutcome =
    | NotDue      // the new lines were cached; no sync was due
    | Synced      // the batch was written and the sync time moved to the clock after the write
    | WriteError  // the output log could not be written; the error is reported and swallowed
    | SortRaised  // a line had no key: the sort raised after the cache was swapped out

  /** The cache, the output log and the last sync time. */
  datatype FlushState = FlushState(cache: seq<string>, outputLog: seq<string>, lastSyncTime: int)

  /**
   * The sync step of `process_log`, from a cache holding `batch`, the output
   * log `outputLog` and the sync time `lastSyncTime`, to `after`: if a sync is
   * due (at the clock reading `now`) the cache is drained whatever happens
   * next, and the batch is sorted and written, the sync time moving to the
   * clock reading taken after the write (`syncTime`) only on success.
   */
  predicate SyncStep(parse: string -> Option<real>, batch: seq<string>, outputLog: seq<string>, lastSyncTime: int,
                     now: int, syncTime: int, fault: WriteFault, after: FlushState, outcome: ProcessOutcome)
  {
    if !ShouldSync(lastSyncTime, now) then
      outcome == NotDue && after == FlushState(batch, outputLog, lastSyncTime)
    else
      match SortList(parse, batch)
      case None =>
        outcome == SortRaised && after == FlushState([], outputLog, lastSyncTime)
      case Some(sorted) =>
        var ok := WriteSucceeds(fault, |sorted|);
        && outcome == (if ok then Synced else WriteError)
        && after == FlushState([], outputLog + Reversed(sorted)[..Written(fault, |sorted|)], if ok then syncTime else lastSyncTime)
  }

  /**
   * Whatever a sync step does, the earlier output stays in place, the sync
   * time moves (to the clock after the write) only when the batch was
   * written, and the cache is drained exactly when a sync was due.
   */
  lemma SyncStepKeepsOutput(parse: string -> Option<real>, batch: seq<string>, outputLog: seq<string>, lastSyncTime: int,
                            now: int, syncTime: int, fault: WriteFault, after: FlushState, outcome: ProcessOutcome)
    requires SyncStep(parse, batch, outputLog, lastSyncTime, now, syncTime, fault, after, outcome)
    ensures outputLog <= after.outputLog
    ensures after.lastSyncTime == if outcome == Synced then syncTime else lastSyncTime
    ensures after.cache == if outcome == NotDue then batch else []
    ensures outcome == NotDue <==> !ShouldSync(lastSyncTime, now)
    ensures outcome == SortRaised <==> ShouldSync(lastSyncTime, now) && !AllKeyed(parse, batch)
    ensures outcome == Synced && now <= syncTime ==> !ShouldSync(after.lastSyncTime, now)
  {
  }

  /**
   * A successful sync appends to the output log exactly the drained batch
   * (each line as often as it was cached) in non-decreasing key order, lines
   * of equal key in the reverse of their cache order.
   */
  lemma SyncedAppendsBatch(parse: string -> Option<real>, batch: seq<string>, outputLog: seq<string>, lastSyncTime: int,
                           now: int, syncTime: int, fault: WriteFault, after: FlushState)
    requires SyncStep(parse, batch, outputLog, lastSyncTime, now, syncTime, fault, after, Synced)
    ensures outputLog <= after.outputLog
    ensures multiset(after.outputLog[|outputLog|..]) == multiset(batch)
    ensures Ascending(KeyOf(parse), after.outputLog[|outputLog|..])
    ensures forall v :: WithKey(KeyOf(parse), after.outputLog[|outputLog|..], v) == Reversed(WithKey(KeyOf(parse), batch, v))
  {
    var sorted := SortList(parse, batch).value;
    assert after.outputLog[|outputLog|..] == Reversed(sorted);
    FlushOrder(parse, batch);
  }

  class LogProcessor {
    /** `input_logs`: the offset of the last read, per path. */
    var inputLogs: map<string, nat>
    /** `cache`: the lines read since the last drain. */
    var cache: seq<string>
    /** `last_sync_time`, in microseconds. */
    var lastSyncTime: int
    /** The content of the output log, as the lines appended to it. */
    var outputLog: seq<string>
    /** The numeric parser applied to the key text (Python's `float`). */
    const parseFloat: string -> Option<real>

    /** The offset the next read of `path` starts from: the stored one, or 0. */
    function Cursor(path: string): nat
      reads this
    {
      if path in inputLogs then inputLogs[path] else 0
    }

    constructor (startTime: int, existingOutput: seq<string>, parseFloat: string -> Option<real>)
      ensures inputLogs == map[] && cache == [] && lastSyncTime == startTime
      ensures outputLog == existingOutput && this.parseFloat == parseFloat
    {
      inputLogs := map[];
      cache := [];
      lastSyncTime := startTime;
      outputLog := existingOutput;
      this.parseFloat := parseFloat;
    }

    /**
     * `remove_input_log`: forget the cursor of a deleted file. The entry is
     * removed only when its offset is non-zero (a truthiness test), but
     * either way the next read of `path` starts at 0.
     */
    method RemoveInputLog(path: string)
      modifies this`inputLogs
      ensures Cursor(path) == 0
      ensures forall q :: q != path ==> (q in inputLogs <==> q in old(inputLogs)) && (q in inputLogs ==> inputLogs[q] == old(inputLogs[q]))
      ensures inputLogs == if path in old(inputLogs) && old(inputLogs[path]) != 0
                           then old(inputLogs) - {path} else old(inputLogs)
    {
      if path in inputLogs && inputLogs[path] != 0 {
        inputLogs := inputLogs - {path};
      }
    }

    /**
     * `get_last_lines`: read `path` from its cursor to the end. On success the
     * cursor becomes the position after the read; when the read fails nothing
     * changes, so the next read retries from the same offset; when only the
     * closing of the file fails, the cursor has moved but no line is returned.
     */
    method GetLastLines(path: string, read: ReadResult) returns (lines: seq<string>)
      modifies this`inputLogs
      ensures lines == TailLines(old(Cursor(path)), read)
      ensures inputLogs == CursorsAfterRead(old(inputLogs), path, old(Cursor(path)), read)
      ensures Cursor(path) >= old(Cursor(path))
      ensures read.ReadOk? && old(Cursor(path)) <= |read.text| ==>
                Concat(lines) == read.text[old(Cursor(path))..] && Cursor(path) == |read.text|
      ensures !read.ReadFails? && old(Cursor(path)) > |read.text| ==> lines == [] && Cursor(path) == old(Cursor(path))
      ensures read.ReadCloseFails? ==> lines == [] && Cursor(path) >= |read.text|
      ensures read.ReadFails? ==> lines == [] && inputLogs == old(inputLogs)
    {
      var filePointer: nat;
      if path in inputLogs && inputLogs[path] != 0 {
        filePointer := inputLogs[path];
      } else {
        filePointer := 0;
      }
      if read.ReadFails? {
        // open, seek, readlines or tell raised: the error is reported and no line is returned
        lines := [];
      } else {
        // seek(filePointer); readlines(); tell()
        var text := read.text;
        if filePointer <= |text| {
          lines := SplitLines(text[filePointer..]);
          inputLogs := inputLogs[path := |text|];
        } else {
          lines := [];
          inputLogs := inputLogs[path := filePointer];
        }
        if read.ReadCloseFails? {
          // closing the file raised after the cursor was stored: the lines are dropped
          lines := [];
        }
      }
    }

    /** `swap_cache`: hand over the whole cache and start a new, empty one. */
    method SwapCache() returns (batch: seq<string>)
      modifies this`cache
      ensures batch == old(cache) && cache == []
    {
      batch := cache;
      cache := [];
    }

    /**
     * `sync_output_log`: pop the lines of `sorted` from its tail, appending each
     * to the output log, and move the sync time to the clock reading taken
     * after closing the file (`syncTime`) only when every step succeeded.
     * Returns whether it did and what is left of the popped list.
     */
    method SyncOutputLog(sorted: seq<string>, syncTime: int, fault: WriteFault) returns (ok: bool, rest: seq<string>)
      modifies this`outputLog, this`lastSyncTime
      ensures ok == WriteSucceeds(fault, |sorted|)
      ensures outputLog == old(outputLog) + Reversed(sorted)[..Written(fault, |sorted|)]
      ensures rest == sorted[..|sorted| - Popped(fault, |sorted|)]
      ensures ok ==> rest == [] && outputLog == old(outputLog) + Reversed(sorted)
      ensures lastSyncTime == if ok then syncTime else old(lastSyncTime)
    {
      if fault.OpenFails? {
        return false, sorted;
      }
      var list := sorted;
      var i := 0;
      while i < |sorted|
        invariant 0 <= i <= |sorted|
        invariant list == sorted[..|sorted| - i]
        invariant outputLog == old(outputLog) + Reversed(sorted)[..i]
        invariant fault.WriteFails? ==> fault.index >= i
        invariant lastSyncTime == old(lastSyncTime)
      {
        var line := list[|list| - 1];
        list := list[..|list| - 1];
        if fault == WriteFails(i) {
          return false, list;
        }
        assert Reversed(sorted)[..i + 1] == Reversed(sorted)[..i] + [line];
        outputLog := outputLog + [line];
        i := i + 1;
      }
      if fault.CloseFails? {
        return false, list;
      }
      lastSyncTime := syncTime;
      return true, list;
    }

    /** The part of the processor's state that a sync reads and writes. */
    function Flushing(): FlushState
      reads this
    {
      FlushState(cache, outputLog, lastSyncTime)
    }

    /**
     * The effect of `process_log(path)`: the new lines of `path` join the
     * cache, then the cache is synced (SyncStep).
     */
    twostate predicate ProcessLogEffect(path: string, read: ReadResult, now: int, syncTime: int, fault: WriteFault,
                                        outcome: ProcessOutcome)
      reads this
    {
      var offset := old(Cursor(path));
      && inputLogs == CursorsAfterRead(old(inputLogs), path, offset, read)
      && SyncStep(parseFloat, old(cache) + TailLines(offset, read), old(outputLog), old(lastSyncTime),
                  now, syncTime, fault, Flushing(), outcome)
    }

    /**
     * `process_log`: read the new lines of `path` into the cache and, when a
     * sync is due, drain, sort and write the batch.
     */
    method ProcessLog(path: string, read: ReadResult, now: int, syncTime: int, fault: WriteFault)
      returns (outcome: ProcessOutcome)
      modifies this`inputLogs, this`cache, this`outputLog, this`lastSyncTime
      ensures inputLogs == CursorsAfterRead(old(inputLogs), path, old(Cursor(path)), read)
      ensures SyncStep(parseFloat, old(cache) + TailLines(old(Cursor(path)), read), old(outputLog), old(lastSyncTime),
                       now, syncTime, fault, Flushing(), outcome)
    {
      var lines := GetLastLines(path, read);
      var i := 0;
      while i < |lines|
        invariant 0 <= i <= |lines|
        invariant cache == old(cache) + lines[..i]
        modifies this`cache
      {
        cache := cache + [lines[i]];
        i := i + 1;
      }
      assert lines[..i] == lines;
      assert cache == old(cache) + TailLines(old(Cursor(path)), read);
      outcome := SyncIfDue(now, syncTime, fault);
    }

    /**
     * The end of `process_log`: when `should_sync` holds, swap the cache out,
     * sort it and write it to the output log. `now` is the clock as
     * `should_sync` reads it, `syncTime` the clock read after the write.
     */
    method SyncIfDue(now: int, syncTime: int, fault: WriteFault) returns (outcome: ProcessOutcome)
      modifies this`cache, this`outputLog, this`lastSyncTime
      ensures SyncStep(parseFloat, old(cache), old(outputLog), old(lastSyncTime), now, syncTime, fault, Flushing(), outcome)
    {
      var sync := ShouldSync(lastSyncTime, now);
      if sync {
        var batch := SwapCache();
        var sorted := SortList(parseFloat, batch);
        match sorted {
          case None =>
            // the key function raised: the exception leaves process_log
            outcome := SortRaised;
          case Some(s) =>
            var ok, _ := SyncOutputLog(s, syncTime, fault);
            outcome := if ok then Synced else WriteError;
        }
      } else {
        outcome := NotDue;
      }
    }
  }

  /**
   * `FileHandler`: routes file-system events to the processor. Whether the
   * event's path is a regular file is part of the event.
   */
  class FileHandler {
    const logParser: LogProcessor

    constructor (startTime: int, existingOutput: seq<string>, parseFloat: string -> Option<real>)
      ensures fresh(logParser)
      ensures logParser.inputLogs == map[] && logParser.cache == [] && logParser.lastSyncTime == startTime
      ensures logParser.outputLog == existingOutput && logParser.parseFloat == parseFloat
    {
      logParser := new LogProcessor(startTime, existingOutput, parseFloat);
    }

    /** `process`: a regular file is processed; anything else is ignored. */
    method Process(path: string, isFile: bool, read: ReadResult, now: int, syncTime: int, fault: WriteFault)
      returns (outcome: Option<ProcessOutcome>)
      modifies logParser
      ensures !isFile ==> outcome == None && unchanged(logParser)
      ensures isFile ==> outcome.Some? && logParser.ProcessLogEffect(path, read, now, syncTime, fault, outcome.value)
    {
      if isFile {
        var r := logParser.ProcessLog(path, read, now, syncTime, fault);
        outcome := Some(r);
      } else {
        outcome := None;
      }
    }

    /** `on_modified`: as `process`. */
    method OnModified(path: string, isFile: bool, read: ReadResult, now: int, syncTime: int, fault: WriteFault)
      returns (outcome: Option<ProcessOutcome>)
      modifies logParser
      ensures !isFile ==> outcome == None && unchanged(logParser)
      ensures isFile ==> outcome.Some? && logParser.ProcessLogEffect(path, read, now, syncTime, fault, outcome.value)
    {
      outcome := Process(path, isFile, read, now, syncTime, fault);
    }

    /** `on_created`: as `process`. */
    method OnCreated(path: string, isFile: bool, read: ReadResult, now: int, syncTime: int, fault: WriteFault)
      returns (outcome: Option<ProcessOutcome>)
      modifies logParser
      ensures !isFile ==> outcome == None && unchanged(logParser)
      ensures isFile ==> outcome.Some? && logParser.ProcessLogEffect(path, read, now, syncTime, fault, outcome.value)
    {
      outcome := Process(path, isFile, read, now, syncTime, fault);
    }

    /** `on_deleted`: forget the path's cursor; nothing is read or written. */
    method OnDeleted(path: string)
      modifies logParser
      ensures logParser.Cursor(path) == 0
      ensures forall q :: q != path ==> logParser.Cursor(q) == old(logParser.Cursor(q))
      ensures logParser.cache == old(logParser.cache) && logParser.outputLog == old(logParser.outputLog)
      ensures logParser.lastSyncTime == old(logParser.lastSyncTime)
    {
      logParser.RemoveInputLog(path);
    }
  }
}
