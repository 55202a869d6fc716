/** The date stamp computed once per request (index.js:209-214): the cache
    partition key `dd-mm-yyyy` and the integer day, month and year used by the
    past-event filter. The wall clock is left out: the calendar date is given
    as integers. */
module DateStamps {
  import opened Wrappers
  import opened JsBuiltins

  datatype DateStamp = DateStamp(formatted: string, day: int, month: int, year: int)

  /** Reads a `dd-mm-yyyy` key back into (day, month, year). */
  function ParseDateKey(key: string): Option<(int, int, int)>
  {
    var fields := Split(key, '-');
    if |fields| != 3 then None
    else
      match (ParseInt(fields[0]), ParseInt(fields[1]), ParseInt(fields[2]))
      case (Some(d), Some(m), Some(y)) => Some((d, m, y))
      case _ => None
  }

  /** The stamp for a calendar date: day and month padded to two digits and
      the year to four, joined by dashes. The key is three dash-separated
      numbers that read back as exactly (day, month, year). */
  function GetDateStamp(year: nat, month: nat, day: nat): (stamp: DateStamp)
    ensures stamp.year == year && stamp.month == month && stamp.day == day
    ensures |Split(stamp.formatted, '-')| == 3
    ensures ParseDateKey(stamp.formatted) == Some((day, month, year))
  {
    var fields := [ZeroPad(day, 2), ZeroPad(month, 2), ZeroPad(year, 4)];
    var key := Join(fields, '-');
    assert forall i, k :: 0 <= i < 3 && 0 <= k < |fields[i]| ==> fields[i][k] != '-';
    JoinThenSplit(fields, '-');
    ParseIntZeroPad(day, 2);
    ParseIntZeroPad(month, 2);
    ParseIntZeroPad(year, 4);
    DateStamp(key, day, month, year)
  }
}
