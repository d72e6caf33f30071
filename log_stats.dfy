/** The counting pass of GET /api/logs/stats: one hour key and one day key per recorded entry. */
module LogStats {

  import opened Seqs
  import opened Logs
  import opened Histogram
  import opened DateKeys

  /** The hour key of every entry, read in local time by localTime. */
  function HourKeys(logs: seq<LogEntry>, localTime: int -> LocalTime): seq<string>
  {
    seq(|logs|, i requires 0 <= i < |logs| => HourKey(localTime(logs[i].time)))
  }

  /** The day key of every entry, read in local time by localTime. */
  function DayKeys(logs: seq<LogEntry>, localTime: int -> LocalTime): seq<string>
  {
    seq(|logs|, i requires 0 <= i < |logs| => DayKey(localTime(logs[i].time)))
  }

  /**
   * The forEach of GET /api/logs/stats: each entry's local hour key and day key counted in two
   * dictionaries, each with its property order.
   */
  method TallyLogs(logs: seq<LogEntry>, localTime: int -> LocalTime)
    returns (hourlyCounts: map<string, nat>, hourOrder: seq<string>,
             dailyCounts: map<string, nat>, dayOrder: seq<string>)
    ensures Tallied(HourKeys(logs, localTime), hourlyCounts, hourOrder)
    ensures Tallied(DayKeys(logs, localTime), dailyCounts, dayOrder)
  {
    ghost var hourKeysOfLogs := HourKeys(logs, localTime);
    ghost var dayKeysOfLogs := DayKeys(logs, localTime);
    hourlyCounts, hourOrder := map[], [];
    dailyCounts, dayOrder := map[], [];
    var i := 0;
    while i < |logs|
      invariant 0 <= i <= |logs|
      invariant Tallied(hourKeysOfLogs[..i], hourlyCounts, hourOrder)
      invariant Tallied(dayKeysOfLogs[..i], dailyCounts, dayOrder)
    {
      var time := localTime(logs[i].time);
      var hourKey := HourKey(time);
      var dateKey := DayKey(time);
      assert hourKeysOfLogs[i] == hourKey && dayKeysOfLogs[i] == dateKey;
      TakeOneMore(hourKeysOfLogs, i);
      TakeOneMore(dayKeysOfLogs, i);
      hourlyCounts, hourOrder := Increment(hourKeysOfLogs[..i], hourlyCounts, hourOrder, hourKey);
      dailyCounts, dayOrder := Increment(dayKeysOfLogs[..i], dailyCounts, dayOrder, dateKey);
      i := i + 1;
    }
    assert hourKeysOfLogs[..i] == hourKeysOfLogs;
    assert dayKeysOfLogs[..i] == dayKeysOfLogs;
  }
}
