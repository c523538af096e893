/**
 * The file backend of the logger: a destination file that can be measured,
 * deleted, appended to and read back, and the helper that reads a stream into
 * an array. A file lives on a reliable disk, where every operation
 * succeeds, or on an unreliable one, where each operation may fail at any
 * point; text is a sequence of characters written and read without any
 * encoding step.
 */
module FileBackend {
  import opened Wrappers

  /** What a file operation can throw. */
  datatype Error = IoFailure | FileNotFound | IndexOutOfBounds

  /** The whole text of a file, or the empty text when it does not exist. */
  function TextOf(data: Option<string>): string {
    data.GetOr("")
  }

  /**
   * The outcome of writing `text` to a file that held `before`: a completed
   * write leaves the base (the old text when appending, nothing otherwise)
   * followed by all of `text`; a failed one leaves the file untouched or
   * holding the base followed by part of `text`.
   */
  ghost predicate Written(before: Option<string>, after: Option<string>, text: string, append: bool, ok: bool) {
    var base := if append then TextOf(before) else "";
    if ok then after == Some(base + text)
    else after == before || (after.Some? && base <= after.value <= base + text)
  }

  /**
   * A destination file; `data` is None while the file does not exist. On a
   * `reliable` disk no operation on it fails.
   */
  class LogFile {
    var data: Option<string>
    const reliable: bool

    constructor (data: Option<string>, reliable: bool)
      ensures this.data == data && this.reliable == reliable
    {
      this.data := data;
      this.reliable := reliable;
    }

    /** `File.length()`: the size of the file, 0 when it does not exist. */
    function Length(): (n: nat)
      reads this
      ensures n == |TextOf(data)|
      ensures data.None? ==> n == 0
    {
      if data.Some? then |data.value| else 0
    }

    /** `File.delete()`: true only when the file existed and is now gone. */
    method Delete() returns (ok: bool)
      modifies this
      ensures ok ==> old(data).Some? && data.None?
      ensures !ok ==> data == old(data)
      ensures reliable ==> (ok <==> old(data).Some?)
    {
      ok := false;
      if data.Some? {
        ok :| reliable ==> ok;
        if ok {
          data := None;
        }
      }
    }
  }

  /**
   * `write`: opens the file for appending or for overwriting (creating it),
   * writes `from` and closes it. A close failure is ignored; an open or
   * write failure is reported as IoFailure.
   */
  method Write(from: string, to: LogFile, append: bool) returns (r: Result<(), Error>)
    modifies to
    ensures Written(old(to.data), to.data, from, append, r.Success?)
    ensures r.Failure? ==> r.error == IoFailure
    ensures to.reliable ==> r.Success?
  {
    var isOpen: bool :| to.reliable ==> isOpen;
    if !isOpen {
      return Failure(IoFailure);
    }
    var base := if append then TextOf(to.data) else "";
    var k: nat :| k <= |from|;
    if to.reliable {
      k := |from|;
    }
    to.data := Some(base + from[..k]);
    var failed: bool :| (k < |from| ==> failed) && (to.reliable ==> !failed);
    if failed {
      return Failure(IoFailure);
    }
    assert from[..k] == from;
    r := Success(());
  }

  /**
   * `after` is `before` with the positions from `off` on overwritten by
   * `chunk`, and every other position kept.
   */
  ghost predicate Filled(before: seq<char>, after: seq<char>, off: int, chunk: seq<char>) {
    && |after| == |before|
    && forall i :: 0 <= i < |after| ==>
         after[i] == (if off <= i < off + |chunk| then chunk[i - off] else before[i])
  }

  lemma FilledExtend(a: seq<char>, b: seq<char>, c: seq<char>, off: int, d1: seq<char>, d2: seq<char>)
    requires Filled(a, b, off, d1) && Filled(b, c, off + |d1|, d2)
    ensures Filled(a, c, off, d1 + d2)
  {
  }

  /**
   * A `FileInputStream` over a file's text: `rest` is what is still unread;
   * on a `reliable` disk no read fails.
   */
  class CharStream {
    var rest: seq<char>
    const reliable: bool

    constructor (content: seq<char>, reliable: bool)
      ensures rest == content && this.reliable == reliable
    {
      rest := content;
      this.reliable := reliable;
    }

    /**
     * `InputStream.read(b, off, len)`: a bad range throws; a zero length
     * reads nothing; otherwise at least one element is read, or -1 is
     * returned at end of stream, or the read fails.
     */
    method Read(b: array<char>, off: int, len: int) returns (r: Result<int, Error>)
      modifies this, b
      ensures off < 0 || len < 0 || off + len > b.Length <==> r == Failure(IndexOutOfBounds)
      ensures r.Failure? ==> r.error != FileNotFound && rest == old(rest) && b[..] == old(b[..])
      ensures r.Success? && len == 0 ==> r.value == 0 && rest == old(rest) && b[..] == old(b[..])
      ensures r.Success? && r.value == -1 ==> len > 0 && old(rest) == [] && rest == old(rest) && b[..] == old(b[..])
      ensures r.Success? && len > 0 && r.value != -1 ==>
                1 <= r.value <= len && r.value <= |old(rest)| && rest == old(rest)[r.value..]
                && Filled(old(b[..]), b[..], off, old(rest)[..r.value])
      ensures r.Success? ==> -1 <= r.value <= len
      ensures reliable && r.Failure? ==> r.error == IndexOutOfBounds
    {
      if off < 0 || len < 0 || off + len > b.Length {
        return Failure(IndexOutOfBounds);
      }
      if len == 0 {
        return Success(0);
      }
      var fails: bool :| reliable ==> !fails;
      if fails {
        return Failure(IoFailure);
      }
      if rest == [] {
        return Success(-1);
      }
      var n: int :| 1 <= n <= len && n <= |rest|;
      forall i | off <= i < off + n {
        b[i] := rest[i - off];
      }
      rest := rest[n..];
      r := Success(n);
    }
  }

  /**
   * `read`: reads into `b` from `off` until `len` elements have arrived or the
   * stream ends. A negative length throws before anything is read; a short
   * read does not end the loop, only the end of the stream does.
   */
  method ReadFully(stream: CharStream, b: array<char>, off: int, len: int) returns (r: Result<int, Error>)
    modifies stream, b
    ensures len < 0 ==> r == Failure(IndexOutOfBounds)
    ensures r.Success? ==> 0 <= r.value <= len && r.value <= |old(stream.rest)|
    ensures r.Success? && r.value < len ==> r.value == |old(stream.rest)|
    ensures r.Success? ==> stream.rest == old(stream.rest)[r.value..]
                           && Filled(old(b[..]), b[..], off, old(stream.rest)[..r.value])
    ensures r == Failure(IndexOutOfBounds) ==> len < 0 || off < 0 || off + len > b.Length
    ensures r.Failure? ==> r.error != FileNotFound
    ensures stream.reliable && r.Failure? ==> r.error == IndexOutOfBounds
  {
    if len < 0 {
      return Failure(IndexOutOfBounds);
    }
    var total := 0;
    while total < len
      invariant 0 <= total <= len && total <= |old(stream.rest)|
      invariant total > 0 ==> 0 <= off && off + len <= b.Length
      invariant stream.rest == old(stream.rest)[total..]
      invariant Filled(old(b[..]), b[..], off, old(stream.rest)[..total])
      decreases len - total
    {
      ghost var before := b[..];
      var result := stream.Read(b, off + total, len - total);
      if result.Failure? {
        return Failure(result.error);
      }
      if result.value == -1 {
        break;
      }
      FilledExtend(old(b[..]), before, b[..], off, old(stream.rest)[..total], old(stream.rest)[total..][..result.value]);
      assert old(stream.rest)[..total] + old(stream.rest)[total..][..result.value] == old(stream.rest)[..total + result.value];
      total := total + result.value;
    }
    r := Success(total);
  }

  /**
   * `toByteArray`: allocates an array of the file's length, reads the whole
   * file into it and closes the stream. A missing file throws FileNotFound;
   * a failed read or close throws IoFailure.
   */
  method ToCharArray(f: LogFile) returns (r: Result<array<char>, Error>)
    ensures r.Success? ==> f.data.Some? && r.value[..] == f.data.value
    ensures f.data.None? ==> r == Failure(FileNotFound)
    ensures r.Failure? ==> r.error != IndexOutOfBounds
    ensures f.reliable && f.data.Some? ==> r.Success?
  {
    var len := f.Length();
    var b := new char[len];
    if f.data.None? {
      return Failure(FileNotFound);
    }
    var stream := new CharStream(f.data.value, f.reliable);
    var n := ReadFully(stream, b, 0, len);
    // the stream is closed whether or not the read succeeded
    var closed: bool :| f.reliable ==> closed;
    if n.Failure? {
      return Failure(n.error);
    }
    if !closed {
      return Failure(IoFailure);
    }
    assert b[..] == f.data.value;
    r := Success(b);
  }

  /** `toString`: the whole text of the file. */
  method ReadText(f: LogFile) returns (r: Result<string, Error>)
    ensures r.Success? ==> f.data == Some(r.value)
    ensures f.data.None? ==> r == Failure(FileNotFound)
    ensures r.Failure? ==> r.error != IndexOutOfBounds
    ensures f.reliable && f.data.Some? ==> r.Success?
  {
    var bytes := ToCharArray(f);
    if bytes.Failure? {
      return Failure(bytes.error);
    }
    r := Success(bytes.value[..]);
  }
}
