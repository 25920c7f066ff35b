/** Event time and tumbling windows of the Bitcoin price stream.

    A record is one already-decoded CSV row (Timestamp, Open, High, Low,
    Close, Volume). Its event time is the Unix `Timestamp` truncated to whole
    seconds; its window is the epoch-aligned ten-minute tumbling window that
    contains that second. Time is counted in whole seconds. */
module EventTime {

  /** Length of a tumbling window: "10 minutes". */
  const WindowLength: int := 600

  /** Delay of the watermark behind the largest event time seen: "5 minutes". */
  const Lateness: int := 300

  /** One row of an input file, after decoding. Prices and volumes are exact reals. */
  datatype Record = Record(timestamp: real, open: real, high: real, low: real, close: real, volume: real)

  /** The `cast("long")` of a double: truncation toward zero. */
  function TruncateToLong(x: real): (r: int)
    ensures 0.0 <= x ==> 0 <= r && r as real <= x < r as real + 1.0
    ensures x < 0.0 ==> r <= 0 && r as real - 1.0 < x <= r as real
  {
    if x >= 0.0 then x.Floor else -((-x).Floor)
  }

  /** The whole-second event time of a record. */
  function EventTimeOf(rec: Record): (t: int)
    ensures 0.0 <= rec.timestamp ==> t as real <= rec.timestamp < t as real + 1.0
    ensures rec.timestamp < 0.0 ==> t as real - 1.0 < rec.timestamp <= t as real
  {
    TruncateToLong(rec.timestamp)
  }

  /** Start of the epoch-aligned window that contains second `t`. */
  function WindowStart(t: int): (s: int)
    ensures s % WindowLength == 0
    ensures s <= t < s + WindowLength
  {
    t - t % WindowLength
  }

  /** End (exclusive) of the window that starts at `start`. */
  function WindowEnd(start: int): int
  {
    start + WindowLength
  }

  /** The window (identified by its start) that a record is grouped into. */
  function WindowOf(rec: Record): (start: int)
    ensures start % WindowLength == 0
    ensures start <= EventTimeOf(rec) < WindowEnd(start)
  {
    WindowStart(EventTimeOf(rec))
  }

  /** Each second lies in exactly one aligned window: any aligned window
      [s, s + 600) that contains `t` is the one `WindowStart` picks. */
  lemma WindowUnique(t: int, s: int)
    requires s % WindowLength == 0 && s <= t < WindowEnd(s)
    ensures s == WindowStart(t)
  {
    var w := WindowStart(t);
    var a, b := s / WindowLength, w / WindowLength;
    assert s == a * WindowLength && w == b * WindowLength;
    assert -WindowLength < s - w < WindowLength;
    assert (a - b) * WindowLength == s - w;
  }

  /** A record's window contains the record's event time, and no other window does. */
  lemma RecordInOneWindow(rec: Record, s: int)
    requires s % WindowLength == 0
    ensures WindowOf(rec) <= EventTimeOf(rec) < WindowEnd(WindowOf(rec))
    ensures s <= EventTimeOf(rec) < WindowEnd(s) <==> s == WindowOf(rec)
  {
    if s <= EventTimeOf(rec) < WindowEnd(s) {
      WindowUnique(EventTimeOf(rec), s);
    }
  }
}
