/** The filter of GET /api/logs: a conjunction of optional predicates over each recorded entry. */
module LogFilter {

  import opened Wrappers
  import opened Seqs
  import opened Strings
  import opened Logs

  /**
   * The query parameters ip, type, start and end. An absent parameter is None; start and end are the
   * numbers the strings denote, None when they denote none.
   */
  datatype LogQuery = LogQuery(ip: Option<string>, kind: Option<string>, start: Option<int>, end: Option<int>)

  const NoQuery := LogQuery(None, None, None, None)

  /** A string parameter takes effect only when it is present and non-empty (JavaScript truthiness). */
  predicate TextInEffect(p: Option<string>)
  {
    p.Some? && p.value != ""
  }

  /** A time bound takes effect only when it is present and not 0 (JavaScript truthiness). */
  predicate BoundInEffect(p: Option<int>)
  {
    p.Some? && p.value != 0
  }

  /**
   * The entry passes every predicate in effect: its address contains ip, its lowered path contains the
   * lowered type, and its time lies within [start, end].
   */
  predicate Matches(q: LogQuery, e: LogEntry)
    ensures !TextInEffect(q.ip) && !TextInEffect(q.kind) && !BoundInEffect(q.start) && !BoundInEffect(q.end)
      ==> Matches(q, e)
    ensures Matches(q, e) && TextInEffect(q.ip) ==> |q.ip.value| <= |e.ip|
    ensures Matches(q, e) && BoundInEffect(q.start) && BoundInEffect(q.end) ==> q.start.value <= q.end.value
  {
    && (TextInEffect(q.ip) ==> Contains(e.ip, q.ip.value))
    && (TextInEffect(q.kind) ==> Contains(ToLower(e.path), ToLower(q.kind.value)))
    && (BoundInEffect(q.start) ==> q.start.value <= e.time)
    && (BoundInEffect(q.end) ==> e.time <= q.end.value)
  }

  /** honeypotLogs.filter(...): the matching entries in store order. */
  function FilterLogs(logs: seq<LogEntry>, q: LogQuery): (r: seq<LogEntry>)
    ensures |r| <= |logs|
  {
    if logs == [] then []
    else if Matches(q, logs[0]) then [logs[0]] + FilterLogs(logs[1..], q)
    else FilterLogs(logs[1..], q)
  }

  /** The filter is exact: every matching entry is kept as often as it occurs, every other entry is dropped. */
  lemma {:induction false} FilterExact(logs: seq<LogEntry>, q: LogQuery)
    ensures forall e :: multiset(FilterLogs(logs, q))[e] == if Matches(q, e) then multiset(logs)[e] else 0
  {
    if logs != [] {
      FilterExact(logs[1..], q);
      assert logs == [logs[0]] + logs[1..];
    }
  }

  /** An entry is returned if and only if it is stored and matches the query. */
  lemma FilterMembership(logs: seq<LogEntry>, q: LogQuery, e: LogEntry)
    ensures e in FilterLogs(logs, q) <==> e in logs && Matches(q, e)
  {
    FilterExact(logs, q);
    assert e in FilterLogs(logs, q) <==> multiset(FilterLogs(logs, q))[e] > 0;
  }

  /** The result keeps the store's order: it is a subsequence of the log. */
  lemma {:induction false} FilterIsSubsequence(logs: seq<LogEntry>, q: LogQuery)
    ensures IsSubsequence(FilterLogs(logs, q), logs)
  {
    if logs != [] {
      FilterIsSubsequence(logs[1..], q);
    }
  }

  /** A query with no parameter in effect returns the whole log. */
  lemma {:induction false} FilterNoParameters(logs: seq<LogEntry>, q: LogQuery)
    requires !TextInEffect(q.ip) && !TextInEffect(q.kind) && !BoundInEffect(q.start) && !BoundInEffect(q.end)
    ensures FilterLogs(logs, q) == logs
  {
    if logs != [] {
      FilterNoParameters(logs[1..], q);
      assert logs == [logs[0]] + logs[1..];
    }
  }

  /** The type parameter is matched without regard to ASCII case. */
  lemma KindIgnoresCase(q: LogQuery, e: LogEntry, kind: string)
    requires q.kind == Some(kind)
    ensures Matches(LogQuery(q.ip, Some(ToLower(kind)), q.start, q.end), e) == Matches(q, e)
  {
    ToLowerIdempotent(kind);
  }
}
