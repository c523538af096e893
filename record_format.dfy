/**
 * The record formatter: the one-line text that `FileLogger.log` builds from a
 * timestamp, the process id, the message and an optional stack trace, and a
 * parser that recovers those fields from a line, as a log reader would.
 */
module RecordFormat {
  import opened Wrappers

  /** Length of a timestamp rendered with the pattern "dd/MM/yy HH:mm:ss.SSS". */
  const DATE_WIDTH: nat := 21

  /** The fields a record line carries. */
  datatype Fields = Fields(date: string, pid: int, message: string)

  predicate IsDigit(c: char) {
    '0' <= c <= '9'
  }

  function DigitChar(d: nat): (c: char)
    requires d < 10
    ensures IsDigit(c)
  {
    (d + '0' as int) as char
  }

  function DigitValue(c: char): (v: Option<nat>)
    ensures v.Some? <==> IsDigit(c)
    ensures v.Some? ==> v.value < 10 && DigitChar(v.value) == c
  {
    if IsDigit(c) then Some(c as int - '0' as int) else None
  }

  /** Decimal digits of `n`, most significant first, without leading zeros. */
  function Digits(n: nat): (s: string)
    ensures |s| >= 1
    ensures forall i :: 0 <= i < |s| ==> IsDigit(s[i])
    ensures |s| > 1 ==> s[0] != '0'
  {
    if n < 10 then [DigitChar(n)] else Digits(n / 10) + [DigitChar(n % 10)]
  }

  /** The value of a non-empty string of decimal digits. */
  function ParseDigits(s: string): (v: Option<nat>)
    ensures v.Some? ==> s != [] && forall i :: 0 <= i < |s| ==> IsDigit(s[i])
  {
    if |s| == 0 then None
    else
      var low := DigitValue(s[|s| - 1]);
      if low.None? then None
      else if |s| == 1 then low
      else match ParseDigits(s[..|s| - 1])
        case None => None
        case Some(high) => Some(high * 10 + low.value)
  }

  /**
   * How `StringBuilder.append(int)` renders the process id: a minus sign
   * exactly for a negative pid, then decimal digits only.
   */
  function PidText(pid: int): (s: string)
    ensures |s| >= 1
    ensures s[0] == '-' <==> pid < 0
    ensures pid >= 0 ==> IsDigit(s[0])
    ensures forall i :: 0 < i < |s| ==> IsDigit(s[i])
  {
    if pid < 0 then "-" + Digits(-pid) else Digits(pid)
  }

  /** The inverse of PidText: an optional minus sign and decimal digits. */
  function ParsePid(s: string): Option<int> {
    if |s| > 0 && s[0] == '-' then
      match ParseDigits(s[1..])
      case None => None
      case Some(v) => Some(-(v as int))
    else
      match ParseDigits(s)
      case None => None
      case Some(v) => Some(v)
  }

  /**
   * The header every record starts with: the date, ": ", the pid, and ": : "
   * (the empty field between the last two colons is kept). The pid field
   * ends at the first colon after the date, so a reader can find it.
   */
  function Header(date: string, pid: int): (h: string)
    ensures |h| == |date| + |PidText(pid)| + 6
    ensures h[..|date|] == date && h[|date|..|date| + 2] == ": "
    ensures IndexOf(h[|date| + 2..], ':') == |PidText(pid)|
    ensures h[|h| - 4..] == ": : "
  {
    PidTextHasNoColon(pid);
    var h := date + ": " + PidText(pid) + ": " + ": ";
    assert h[|date| + 2..] == PidText(pid) + ": : ";
    h
  }

  /**
   * The record `log` adds to the buffer: header and message, then, only when
   * a throwable was given, a line feed and its rendered stack trace.
   */
  function Record(date: string, pid: int, message: string, trace: Option<string>): (r: string)
    ensures Header(date, pid) + message <= r
    ensures trace.None? <==> |r| == |Header(date, pid)| + |message|
    ensures trace.Some? ==> r[|Header(date, pid)| + |message|..] == "\n" + trace.value
  {
    match trace
    case None => Header(date, pid) + message
    case Some(t) => Header(date, pid) + message + "\n" + t
  }

  /** Index of the first `c` in `s`, or |s| when there is none. */
  function IndexOf(s: string, c: char): (k: nat)
    ensures k <= |s|
    ensures k < |s| ==> s[k] == c
    ensures forall j :: 0 <= j < k ==> s[j] != c
  {
    if s == [] then 0
    else if s[0] == c then 0
    else 1 + IndexOf(s[1..], c)
  }

  /**
   * Reads a record line back into its fields: a fixed-width timestamp, ": ",
   * the pid up to the next colon, ": : ", and the message as the rest.
   */
  function ParseRecord(line: string): Option<Fields> {
    if |line| < DATE_WIDTH + 2 || line[DATE_WIDTH..DATE_WIDTH + 2] != ": " then None
    else
      var rest := line[DATE_WIDTH + 2..];
      var k := IndexOf(rest, ':');
      if |rest| < k + 4 || rest[k..k + 4] != ": : " then None
      else match ParsePid(rest[..k])
        case None => None
        case Some(pid) => Some(Fields(line[..DATE_WIDTH], pid, rest[k + 4..]))
  }

  lemma {:induction false} DigitsRoundTrip(n: nat)
    ensures ParseDigits(Digits(n)) == Some(n)
  {
    if n >= 10 {
      var s := Digits(n);
      assert s == Digits(n / 10) + [DigitChar(n % 10)];
      assert s[..|s| - 1] == Digits(n / 10);
      DigitsRoundTrip(n / 10);
    }
  }

  /** The pid written into a record is read back unchanged. */
  lemma PidRoundTrip(pid: int)
    ensures ParsePid(PidText(pid)) == Some(pid)
  {
    if pid < 0 {
      DigitsRoundTrip(-pid);
      assert PidText(pid)[1..] == Digits(-pid);
    } else {
      DigitsRoundTrip(pid);
    }
  }

  lemma PidTextHasNoColon(pid: int)
    ensures IndexOf(PidText(pid) + ": : ", ':') == |PidText(pid)|
  {
    var p := PidText(pid);
    var s := p + ": : ";
    assert forall j :: 0 <= j < |p| ==> s[j] == p[j];
    assert s[|p|] == ':';
  }

  /**
   * A record built without a stack trace is parsed back into the date, pid and
   * message it was built from, whatever the message contains.
   */
  lemma RecordRoundTrip(date: string, pid: int, message: string)
    requires |date| == DATE_WIDTH
    ensures ParseRecord(Record(date, pid, message, None)) == Some(Fields(date, pid, message))
  {
    var line := Record(date, pid, message, None);
    var p := PidText(pid);
    assert line == date + ": " + (p + ": : " + message);
    assert line[..DATE_WIDTH] == date;
    assert line[DATE_WIDTH..DATE_WIDTH + 2] == ": ";
    var rest := line[DATE_WIDTH + 2..];
    assert rest == p + ": : " + message;
    PidTextHasNoColon(pid);
    assert (p + ": : " + message)[..|p| + 4] == p + ": : ";
    var k := IndexOf(rest, ':');
    assert k == |p| by {
      assert IndexOf(p + ": : ", ':') == |p|;
      assert rest[|p|] == ':';
    }
    assert rest[k..k + 4] == ": : ";
    assert rest[..k] == p;
    assert rest[k + 4..] == message;
    PidRoundTrip(pid);
  }

  /** A record without a trace is a single line when its date and message are. */
  lemma ErrorRecordIsOneLine(date: string, pid: int, message: string)
    requires forall i :: 0 <= i < |date| ==> date[i] != '\n'
    requires forall i :: 0 <= i < |message| ==> message[i] != '\n'
    ensures forall i :: 0 <= i < |Record(date, pid, message, None)| ==> Record(date, pid, message, None)[i] != '\n'
  {
  }
}
