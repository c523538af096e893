/**
 * The buffered sink: a FileLogger keeps formatted records in memory, writes
 * them to its destination file in one batch once thirty have accumulated or
 * when flushed, and deletes a file that has grown past the size cap before
 * writing to it.
 */
module FileLogging {
  import opened Wrappers
  import opened RecordFormat
  import opened FileBackend

  /** Records kept in memory before a flush is forced. */
  const MAX_MESSAGES: nat := 30

  /** A file longer than this is deleted at the start of a flush: 8 * 1024 * 512 = 4,194,304. */
  const MAX_FILE_SIZE: nat := 8 * 1024 * 512

  /** The text of a batch of records: each record followed by a line feed, in order. */
  function Joined(records: seq<string>): string {
    if records == [] then "" else records[0] + "\n" + Joined(records[1..])
  }

  /** The lines of a text whose lines each end in a line feed; the inverse of Joined. */
  function SplitLines(s: string): seq<string>
    decreases |s|
  {
    if s == [] then []
    else
      var k := IndexOf(s, '\n');
      if k == |s| then [s] else [s[..k]] + SplitLines(s[k + 1..])
  }

  predicate OneLine(record: string) {
    forall i :: 0 <= i < |record| ==> record[i] != '\n'
  }

  /** Writing two batches one after the other leaves the same text as writing them as one. */
  lemma {:induction false} JoinedConcat(a: seq<string>, b: seq<string>)
    ensures Joined(a + b) == Joined(a) + Joined(b)
  {
    if a == [] {
      assert a + b == b;
    } else {
      assert (a + b)[0] == a[0];
      assert (a + b)[1..] == a[1..] + b;
      JoinedConcat(a[1..], b);
    }
  }

  /** A batch's records are read back from the file's lines, in order. */
  lemma {:induction false} SplitJoined(records: seq<string>)
    requires forall i :: 0 <= i < |records| ==> OneLine(records[i])
    ensures SplitLines(Joined(records)) == records
  {
    if records != [] {
      var s := Joined(records);
      var head := records[0];
      assert s == head + "\n" + Joined(records[1..]);
      assert s[|head|] == '\n';
      assert IndexOf(s, '\n') == |head| by {
        assert forall j :: 0 <= j < |head| ==> s[j] == head[j];
      }
      assert s[..|head|] == head;
      assert s[|head| + 1..] == Joined(records[1..]);
      SplitJoined(records[1..]);
    }
  }

  /**
   * Records flushed in two batches appear in the file as the lines of both
   * batches, in the order they were logged.
   */
  lemma LinesInLogOrder(earlier: seq<string>, later: seq<string>)
    requires forall i :: 0 <= i < |earlier| ==> OneLine(earlier[i])
    requires forall i :: 0 <= i < |later| ==> OneLine(later[i])
    ensures SplitLines(Joined(earlier) + Joined(later)) == earlier + later
  {
    JoinedConcat(earlier, later);
    SplitJoined(earlier + later);
  }

  /**
   * What a flush of `batch` does to a file holding `before`. An empty batch
   * leaves it alone. Otherwise the file is deleted only if it was longer
   * than MAX_FILE_SIZE, and then the batch is appended to whatever remains;
   * `written` says the append completed. On a reliable disk the deletion
   * happens exactly when the file is over the cap and the append completes;
   * on an unreliable one either may fail.
   */
  ghost predicate Flushed(before: Option<string>, after: Option<string>, batch: seq<string>,
                          reliable: bool, deleted: bool, written: bool) {
    if batch == [] then after == before && !deleted && !written
    else
      && (deleted ==> before.Some? && |before.value| > MAX_FILE_SIZE)
      && (reliable ==> (deleted <==> |TextOf(before)| > MAX_FILE_SIZE) && written)
      && Written(if deleted then None else before, after, Joined(batch), true, written)
  }

  /**
   * A flush on a reliable disk: the batch lands after the old text, or alone
   * when the old text was over the cap.
   */
  lemma ReliableFlush(before: Option<string>, after: Option<string>, batch: seq<string>, deleted: bool, written: bool)
    requires batch != []
    requires Flushed(before, after, batch, true, deleted, written)
    ensures |TextOf(before)| > MAX_FILE_SIZE ==> after == Some(Joined(batch))
    ensures |TextOf(before)| <= MAX_FILE_SIZE ==> after == Some(TextOf(before) + Joined(batch))
  {
    assert "" + Joined(batch) == Joined(batch);
  }

  /**
   * A record with a stack trace still starts with the whole traceless record
   * as its first line in the file, so the fields can be read from that line.
   */
  lemma TracedRecordFirstLine(date: string, pid: int, message: string, trace: string)
    requires OneLine(date) && OneLine(message)
    ensures |SplitLines(Joined([Record(date, pid, message, Some(trace))]))| >= 1
    ensures SplitLines(Joined([Record(date, pid, message, Some(trace))]))[0] == Record(date, pid, message, None)
    ensures |date| == DATE_WIDTH ==>
              ParseRecord(SplitLines(Joined([Record(date, pid, message, Some(trace))]))[0]) == Some(Fields(date, pid, message))
  {
    var first := Record(date, pid, message, None);
    var s := Joined([Record(date, pid, message, Some(trace))]);
    assert s == first + "\n" + trace + "\n";
    ErrorRecordIsOneLine(date, pid, message);
    assert s[|first|] == '\n';
    assert IndexOf(s, '\n') == |first| by {
      assert forall j :: 0 <= j < |first| ==> s[j] == first[j];
    }
    assert s[..|first|] == first;
    if |date| == DATE_WIDTH {
      RecordRoundTrip(date, pid, message);
    }
  }

  /** Rotation: a completed flush after a deletion leaves only the new batch. */
  lemma RotationDiscardsPrior(before: Option<string>, after: Option<string>, batch: seq<string>, reliable: bool)
    requires batch != []
    requires Flushed(before, after, batch, reliable, true, true)
    ensures |TextOf(before)| > MAX_FILE_SIZE
    ensures after == Some(Joined(batch))
  {
    assert "" + Joined(batch) == Joined(batch);
  }

  /** A file within the cap is never deleted; its text stays a prefix, even when the write fails. */
  lemma SmallFileKept(before: Option<string>, after: Option<string>, batch: seq<string>, reliable: bool, deleted: bool, written: bool)
    requires |TextOf(before)| <= MAX_FILE_SIZE
    requires Flushed(before, after, batch, reliable, deleted, written)
    ensures !deleted
    ensures TextOf(before) <= TextOf(after)
    ensures written ==> TextOf(after) == TextOf(before) + Joined(batch)
  {
  }

  /** The cap is tested before the append: a completed flush writes the whole batch, however long. */
  lemma WholeBatchWritten(before: Option<string>, after: Option<string>, batch: seq<string>, reliable: bool, deleted: bool)
    requires Flushed(before, after, batch, reliable, deleted, true)
    ensures after.Some? && |Joined(batch)| <= |after.value|
    ensures after.value[|after.value| - |Joined(batch)|..] == Joined(batch)
  {
  }

  class FileLogger {
    /** The destination; null when the host has no cache directory. `getFile` returns it. */
    const file: LogFile?
    /** Records not yet written, oldest first. */
    var messages: seq<string>

    /** Between calls the buffer never holds MAX_MESSAGES records. */
    ghost predicate Valid()
      reads this
    {
      |messages| < MAX_MESSAGES
    }

    constructor (file: LogFile?)
      ensures Valid()
      ensures this.file == file && messages == []
    {
      this.file := file;
      messages := [];
    }

    /** The pending records as they will be written: `appendMessages`. */
    method AppendMessages(buf: string) returns (r: string)
      ensures r == buf + Joined(messages)
    {
      r := buf;
      var i := 0;
      while i < |messages|
        invariant 0 <= i <= |messages|
        invariant r == buf + Joined(messages[..i])
      {
        JoinedConcat(messages[..i], [messages[i]]);
        assert messages[..i + 1] == messages[..i] + [messages[i]];
        r := r + messages[i] + "\n";
        i := i + 1;
      }
      assert messages[..i] == messages;
    }

    /**
     * `flush`: with a destination and pending records, deletes an oversized
     * file and appends the batch, ignoring I/O failures; in every case the
     * buffer is emptied.
     */
    method Flush() returns (ghost deleted: bool, ghost written: bool)
      modifies this, file
      ensures Valid() && messages == []
      ensures file == null ==> !deleted && !written
      ensures file != null ==> Flushed(old(file.data), file.data, old(messages), file.reliable, deleted, written)
    {
      deleted, written := false, false;
      if file != null && messages != [] {
        if file.Length() > MAX_FILE_SIZE {
          deleted := file.Delete();
        }
        var buf := AppendMessages("");
        assert buf == Joined(messages);
        assert file.data == if deleted then None else old(file.data);
        var result := Write(buf, file, true);
        written := result.Success?;
      }
      messages := [];
    }

    /**
     * `getLog`: the file's text (empty when there is no file or it cannot be
     * read) followed by the pending records. Nothing is changed.
     */
    method GetLog() returns (s: string, ghost readOk: bool)
      ensures readOk ==> file != null && file.data.Some?
      ensures file == null || file.data.None? ==> !readOk
      ensures s == (if readOk then file.data.value else "") + Joined(messages)
      ensures s == Joined(messages) || (file != null && file.data.Some? && s == file.data.value + Joined(messages))
      ensures file != null && file.reliable && file.data.Some? ==> readOk && s == file.data.value + Joined(messages)
    {
      var buf := "";
      readOk := false;
      if file != null {
        var text := ReadText(file);
        if text.Success? {
          buf := text.value;
          readOk := true;
        }
      }
      s := AppendMessages(buf);
    }

    /**
     * Two calls to `getLog` in a row that both read the file, or both fail to,
     * return the same text; on a reliable disk they always agree.
     */
    method GetLogTwice() returns (first: string, second: string, ghost ok1: bool, ghost ok2: bool)
      ensures ok1 == ok2 ==> first == second
      ensures !ok1 && !ok2 ==> first == Joined(messages)
      ensures file == null || file.reliable ==> first == second
    {
      first, ok1 := GetLog();
      second, ok2 := GetLog();
    }

    /**
     * `log`: formats a record, adds it to the buffer and flushes once the
     * buffer holds MAX_MESSAGES records.
     */
    method Log(date: string, pid: int, message: string, trace: Option<string>)
      returns (ghost flushed: bool, ghost deleted: bool, ghost written: bool)
      requires Valid()
      modifies this, file
      ensures Valid()
      ensures flushed <==> |old(messages)| + 1 == MAX_MESSAGES
      ensures !flushed ==> messages == old(messages) + [Record(date, pid, message, trace)]
      ensures !flushed && file != null ==> file.data == old(file.data)
      ensures flushed ==> messages == []
      ensures flushed && file != null ==>
                Flushed(old(file.data), file.data, old(messages) + [Record(date, pid, message, trace)], file.reliable, deleted, written)
    {
      messages := messages + [Record(date, pid, message, trace)];
      flushed, deleted, written := false, false, false;
      if |messages| >= MAX_MESSAGES {
        flushed := true;
        deleted, written := Flush();
      }
    }

    /** `error`: logs a message with no stack trace. */
    method Error(date: string, pid: int, message: string)
      returns (ghost flushed: bool, ghost deleted: bool, ghost written: bool)
      requires Valid()
      modifies this, file
      ensures Valid()
      ensures flushed <==> |old(messages)| + 1 == MAX_MESSAGES
      ensures !flushed ==> messages == old(messages) + [Header(date, pid) + message]
      ensures !flushed && file != null ==> file.data == old(file.data)
      ensures flushed ==> messages == []
      ensures flushed && file != null ==>
                Flushed(old(file.data), file.data, old(messages) + [Header(date, pid) + message], file.reliable, deleted, written)
    {
      flushed, deleted, written := Log(date, pid, message, None);
    }
  }
}
