/** The honeypot log store: an append-only array of access records, read back newest first. */
module Logs {

  /** One recorded access to a decoy path. The time is an instant supplied by the caller. */
  datatype LogEntry = LogEntry(ip: string, path: string, time: int)

  /** Ordered by time, newest first. */
  ghost predicate NewestFirst(s: seq<LogEntry>)
  {
    forall i, j :: 0 <= i < j < |s| ==> s[i].time >= s[j].time
  }

  /**
   * Places e before the first entry that is not newer than it. An entry inserted this way lands in front
   * of entries with the same time, which is what keeps the sort below stable.
   */
  function InsertByTime(e: LogEntry, s: seq<LogEntry>): (r: seq<LogEntry>)
    ensures |r| == |s| + 1
    ensures multiset(r) == multiset(s) + multiset{e}
    ensures NewestFirst(s) ==> NewestFirst(r)
  {
    if s == [] || s[0].time <= e.time then
      [e] + s
    else
      var t := InsertByTime(e, s[1..]);
      assert s == [s[0]] + s[1..];
      InsertBehind(e, s, t);
      [s[0]] + t
  }

  /** s's head in front of t keeps the order when it is newer than e and than the rest of s. */
  lemma InsertBehind(e: LogEntry, s: seq<LogEntry>, t: seq<LogEntry>)
    requires s != [] && s[0].time > e.time
    requires multiset(t) == multiset(s[1..]) + multiset{e}
    requires NewestFirst(s[1..]) ==> NewestFirst(t)
    ensures NewestFirst(s) ==> NewestFirst([s[0]] + t)
  {
    if NewestFirst(s) {
      var r := [s[0]] + t;
      forall i, j | 0 <= i < j < |r|
        ensures r[i].time >= r[j].time
      {
        if i == 0 {
          assert r[j] in multiset(t);
          if r[j] != e {
            var k :| 0 <= k < |s[1..]| && s[1..][k] == r[j];
            assert s[k + 1] == r[j];
          }
        }
      }
    }
  }

  /** slice().sort((a, b) => b.time - a.time), as an insertion sort. */
  function SortNewestFirst(s: seq<LogEntry>): (r: seq<LogEntry>)
    ensures |r| == |s|
    ensures multiset(r) == multiset(s)
    ensures NewestFirst(r)
  {
    if s == [] then []
    else
      assert s == [s[0]] + s[1..];
      InsertByTime(s[0], SortNewestFirst(s[1..]))
  }

  /** Sorting entries that are already newest first leaves them as they are; in particular sorting is idempotent. */
  lemma {:induction false} SortNewestFirstKeepsSorted(s: seq<LogEntry>)
    requires NewestFirst(s)
    ensures SortNewestFirst(s) == s
  {
    if s != [] {
      SortNewestFirstKeepsSorted(s[1..]);
      assert s == [s[0]] + s[1..];
    }
  }

  /** The module-level honeypotLogs array and the two functions that use it. */
  class LogStore {

    var honeypotLogs: seq<LogEntry>

    constructor ()
      ensures honeypotLogs == []
    {
      honeypotLogs := [];
    }

    /** addLog: appends one entry carrying the given address, path and time. */
    method AddLog(ip: string, path: string, time: int)
      modifies this
      ensures honeypotLogs == old(honeypotLogs) + [LogEntry(ip, path, time)]
    {
      honeypotLogs := honeypotLogs + [LogEntry(ip, path, time)];
    }

    /** getLogs: a copy of the store holding the same entries, newest first; the store itself is only read. */
    function GetLogs(): (r: seq<LogEntry>)
      reads this
      ensures |r| == |honeypotLogs|
      ensures multiset(r) == multiset(honeypotLogs)
      ensures NewestFirst(r)
    {
      SortNewestFirst(honeypotLogs)
    }
  }

  /** A call of addLog: what the caller passes, together with the clock reading at that moment. */
  datatype AddLogCall = AddLogCall(ip: string, path: string, time: int)

  /** Starting from an empty store, n calls of addLog leave exactly those n entries, in call order. */
  method AddAll(calls: seq<AddLogCall>) returns (store: LogStore)
    ensures fresh(store)
    ensures |store.honeypotLogs| == |calls|
    ensures forall i :: 0 <= i < |calls| ==>
      store.honeypotLogs[i] == LogEntry(calls[i].ip, calls[i].path, calls[i].time)
    ensures |store.GetLogs()| == |calls|
  {
    store := new LogStore();
    var i := 0;
    while i < |calls|
      invariant 0 <= i <= |calls|
      invariant |store.honeypotLogs| == i
      invariant forall k :: 0 <= k < i ==>
        store.honeypotLogs[k] == LogEntry(calls[k].ip, calls[k].path, calls[k].time)
    {
      store.AddLog(calls[i].ip, calls[i].path, calls[i].time);
      i := i + 1;
    }
  }
}
