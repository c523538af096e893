# FileLogger in Dafny

A model of `org.telegram.util.FileLogger`, a buffered, size-capped text logger.
A `FileLogger` holds an optional destination file and an ordered list of
pending records. `error` formats a record
(`<date>: <pid>: : <message>`) and appends it to the list, and once the list
holds `MAX_MESSAGES = 30` records it is flushed. `flush` deletes the file when
it is longer than `MAX_FILE_SIZE = 8 * 1024 * 512` (4,194,304), appends every
pending record followed by a line feed, ignores I/O failures and always
empties the list. `getLog` returns the file's text followed by the pending
records and changes nothing. The static helpers `write`, `toString`,
`toByteArray` and `read` form the file backend.

Files:

- `wrappers.dfy` (module `Wrappers`): `Option` for Java's nullable values and
  `Result` for an exception or a normal return.
- `record_format.dfy` (module `RecordFormat`): the record line built by
  `log`, the decimal text of the pid, and a parser that reads a record line
  back into its fields, as the partner of the formatter.
- `file_backend.dfy` (module `FileBackend`): the destination file as a class
  whose `data` is `None` while the file does not exist. It also holds
  `write`, a stream over a file, the `read` loop over an array,
  `toByteArray` and `toString`. Each file carries a constant `reliable`:
  on a reliable disk every open, write, delete, read and close succeeds;
  on an unreliable one each may fail, as a nondeterministic choice inside
  these methods.
- `file_logger.dfy` (module `FileLogging`): the `FileLogger` class with its
  `messages` sequence and its `file` reference, and the specification of a
  flush (`Flushed`). It also holds `Joined`, the text of a batch of records,
  with `SplitLines`, its inverse.

The outcomes of the disk operations are returned as ghost out-parameters
(`deleted`, `written`, `readOk`). Contracts can then say what happens when
an append completed or when a read succeeded, and on a reliable disk they
say that the deletion happens exactly above the cap, that the append
completes and that the read succeeds. The Java methods return nothing of
the kind.

The buffer bound is the object invariant `Valid()`: fewer than 30 pending
records between calls. `Log` and `Error` keep it, and `Flush` re-establishes
it.

With no destination, 35 `error` calls leave 5 records pending, because the
30th call's flush cleared the list. `flush` clears the list on every path,
a failed write included.

## Model

| member | source | states |
|---|---|---|
| RecordFormat.DigitsRoundTrip | TMessagesProj/src/main/java/org/telegram/util/FileLogger.java:80 | the decimal digits written for a non-negative number parse back to that number |
| RecordFormat.PidRoundTrip | TMessagesProj/src/main/java/org/telegram/util/FileLogger.java:80 | the pid text appended by `append(int)`, sign included, parses back to the pid |
| RecordFormat.RecordRoundTrip | TMessagesProj/src/main/java/org/telegram/util/FileLogger.java:80-81 | a record without a trace, built from a 21-character date, parses back to exactly its date, pid and message (the empty field between the two colons after the pid included) |
| RecordFormat.ErrorRecordIsOneLine | TMessagesProj/src/main/java/org/telegram/util/FileLogger.java:37-39 | a record built by `error` contains no line feed when its date and message contain none |
| RecordFormat.PidText | TMessagesProj/src/main/java/org/telegram/util/FileLogger.java:80 | the pid is written as a minus sign exactly when it is negative, then decimal digits only |
| RecordFormat.Header | TMessagesProj/src/main/java/org/telegram/util/FileLogger.java:80 | the header is the date, ": ", the pid (whose field ends at the first colon after the date), then ": : " with the empty field kept |
| RecordFormat.Record | TMessagesProj/src/main/java/org/telegram/util/FileLogger.java:80-84 | a record starts with the header and the message; a line feed and the trace follow exactly when a throwable is given, and nothing follows otherwise |
| FileLogging.TracedRecordFirstLine | TMessagesProj/src/main/java/org/telegram/util/FileLogger.java:82-84 | a record with a stack trace, once written, has the traceless record as its whole first line, from which the date, pid and message parse back |
| FileBackend.LogFile.Length | TMessagesProj/src/main/java/org/telegram/util/FileLogger.java:45 | the length of the file is the length of its text, 0 when it does not exist |
| FileBackend.LogFile.Delete | TMessagesProj/src/main/java/org/telegram/util/FileLogger.java:46 | deletion reports success only when the file existed and is gone; otherwise the file is unchanged; on a reliable disk it succeeds exactly when the file exists |
| FileBackend.Write | TMessagesProj/src/main/java/org/telegram/util/FileLogger.java:101-114 | a completed write leaves the old text (when appending) followed by all of the new text; a failed one leaves the file untouched or holding a prefix of that; the only exception is an I/O failure, and on a reliable disk the write always completes |
| FileBackend.CharStream.Read | TMessagesProj/src/main/java/org/telegram/util/FileLogger.java:139 | a bad range throws IndexOutOfBounds, a zero length reads nothing, -1 only at end of stream, otherwise between 1 and `len` elements copied to `b` from `off` with the rest of `b` kept; on a reliable disk only a bad range fails |
| FileBackend.ReadFully | TMessagesProj/src/main/java/org/telegram/util/FileLogger.java:133-146 | a negative length throws; otherwise `0 <= total <= len`, the first `total` unread elements are copied to `b` from `off` and consumed, and `total < len` only when the stream ended; on a reliable disk only a bad range fails |
| FileBackend.ToCharArray | TMessagesProj/src/main/java/org/telegram/util/FileLogger.java:120-131 | a missing file throws FileNotFound; a successful read returns exactly the file's text; a failed read or close throws IoFailure; IndexOutOfBounds never escapes; on a reliable disk an existing file is always read |
| FileBackend.ReadText | TMessagesProj/src/main/java/org/telegram/util/FileLogger.java:116-118 | the text returned is the file's whole text; a missing file throws FileNotFound |
| FileLogging.JoinedConcat | TMessagesProj/src/main/java/org/telegram/util/FileLogger.java:73-77 | the text of two batches written in turn equals the text of the two batches written as one |
| FileLogging.SplitJoined | TMessagesProj/src/main/java/org/telegram/util/FileLogger.java:73-77 | the lines of a batch's text are the batch's records, in order, when no record contains a line feed |
| FileLogging.LinesInLogOrder | TMessagesProj/src/main/java/org/telegram/util/FileLogger.java:50-53 | records flushed in two batches are read back from the file as one list in the order they were logged |
| FileLogging.ReliableFlush | TMessagesProj/src/main/java/org/telegram/util/FileLogger.java:43-53 | on a reliable disk a flush leaves the batch alone in the file when the old text was over 4,194,304 characters, and after the old text otherwise |
| FileLogging.RotationDiscardsPrior | TMessagesProj/src/main/java/org/telegram/util/FileLogger.java:45-47 | a deletion happens only for a file over 4,194,304 characters, and a completed flush after it leaves only the new batch |
| FileLogging.SmallFileKept | TMessagesProj/src/main/java/org/telegram/util/FileLogger.java:45-53 | a file within the cap is never deleted and its text stays a prefix of the file, even when the write fails; a completed write appends exactly the batch |
| FileLogging.WholeBatchWritten | TMessagesProj/src/main/java/org/telegram/util/FileLogger.java:45-53 | the cap is tested before the append, so a completed flush leaves the whole batch at the end of the file, however long it is |
| FileLogging.FileLogger.constructor | TMessagesProj/src/main/java/org/telegram/util/FileLogger.java:26-31 | a new logger has the given (possibly null) destination and an empty buffer |
| FileLogging.FileLogger.AppendMessages | TMessagesProj/src/main/java/org/telegram/util/FileLogger.java:73-77 | the builder's text is followed by each pending record and a line feed, in insertion order |
| FileLogging.FileLogger.Flush | TMessagesProj/src/main/java/org/telegram/util/FileLogger.java:42-58 | the buffer is empty afterwards in every case; with no file nothing is written; otherwise the file changes as `Flushed` says (untouched for an empty buffer, deletion only above the cap, then the batch appended in order; on a reliable disk the deletion happens exactly above the cap and the append completes) |
| FileLogging.FileLogger.GetLog | TMessagesProj/src/main/java/org/telegram/util/FileLogger.java:61-71 | the result is the pending records, preceded by the whole file text when a file exists and was read (empty when there is no file, it does not exist or the read fails; on a reliable disk an existing file is always read); no frame, so neither the buffer nor the file changes |
| FileLogging.FileLogger.GetLogTwice | TMessagesProj/src/main/java/org/telegram/util/FileLogger.java:61-71 | two `getLog` calls in a row return the same text when both reads succeed or both fail, and always on a reliable disk or without a file |
| FileLogging.FileLogger.Log | TMessagesProj/src/main/java/org/telegram/util/FileLogger.java:79-89 | the formatted record is appended to the buffer; exactly when the buffer reaches 30 it is flushed with that record as the last of the batch; fewer than 30 records remain afterwards |
| FileLogging.FileLogger.Error | TMessagesProj/src/main/java/org/telegram/util/FileLogger.java:37-39 | as `Log` with no throwable: the record is the header followed by the message, never a stack trace |

## Left out

- Concurrency: `flush`, `getLog` and `log` are `synchronized`; the model is sequential and each method runs atomically.
- The clock and `SimpleDateFormat`: the timestamp is an opaque string argument. The round trip of a record assumes the 21-character width the pattern `dd/MM/yy HH:mm:ss.SSS` produces.
- `android.os.Process.myPid()`: the pid is an integer argument.
- `Log.getStackTraceString`: the rendered trace is an optional string argument.
- `getLogger(Context, String)` and `getExternalCacheDir`: host plumbing; the constructor takes a possibly null destination instead. `getLogger(File)` is the constructor itself.
- `getFile`: the destination is the public constant field `file`, which is what `getFile` returns.
- Charsets and UTF-8: the file holds characters, and its length is counted in characters, not encoded bytes.
- The `(int)` cast of `file.length()` in `toByteArray`: the model's length is unbounded, so the cast is not modelled. The size cap does not bound the file, since a failed delete lets it keep growing.
- FileBackend.Write: `write` ignores a failure to close the writer, which may lose buffered text; the model treats a write that reported success as complete.
- FileBackend.CharStream.Read: a failed read leaves the array and the stream as they were; a real stream may have consumed or copied part of the data before failing.
- FileLogging.FileLogger.Log: requires the object invariant `Valid()` (fewer than 30 pending records), which the constructor establishes and every method keeps; the Java method has no such check.
- FileLogging.FileLogger.Error: requires `Valid()` for the same reason as `Log`.
- Disk reliability is fixed for a file's lifetime: a disk that fails only some of the time is modelled as unreliable, where every operation may fail.
- Several loggers sharing one file: unsupported by the logger and not modelled.
