/**
 * The Express backend: a blocklist gate in front of every route, three decoy paths that record and
 * announce each access, the log query and statistics endpoints, and the blacklist endpoints. Its
 * blocklist and log are arrays of its own, not the two stores of the other modules.
 */
module Server {

  import opened Wrappers
  import opened Seqs
  import opened Logs
  import opened LogFilter
  import opened Histogram
  import opened DateKeys
  import opened LogStats

  /** The decoy paths; a GET of one of them is a honeypot hit. */
  const HoneypotPaths: seq<string> := ["/admin", "/secret", "/hidden"]

  /** A message broadcast to every open WebSocket client. */
  datatype Event =
    | HoneypotTriggered(ip: string, path: string)
    | BlacklistAdded(ip: string)
    | BlacklistRemoved(ip: string)

  datatype Verb = GET | POST | DELETE

  /**
   * An inbound request: its method, its path, the parsed query parameters of /api/logs, and the ip field
   * of the JSON body of POST /api/blacklist. The peer address is passed beside it.
   */
  datatype Request = Request(verb: Verb, path: string, query: LogQuery, bodyIp: Option<string>)

  /** The route a request reaches once it is past the gate. */
  datatype Route =
    | DecoyRoute
    | LogsRoute
    | StatsRoute
    | BlacklistGetRoute
    | BlacklistPostRoute
    | BlacklistDeleteRoute(target: string)
    | NoRoute

  const BlacklistItemPrefix := "/api/blacklist/"

  /** /api/blacklist/:ip, the parameter being one or more characters other than '/'. */
  predicate IsBlacklistItemPath(path: string)
  {
    |path| > |BlacklistItemPrefix| && path[..|BlacklistItemPrefix|] == BlacklistItemPrefix
    && '/' !in path[|BlacklistItemPrefix|..]
  }

  /**
   * The route a request reaches. Decoy matching is exact membership of a GET's path in the decoy list; the
   * :ip parameter of a DELETE is the non-empty remainder of the path after the prefix.
   */
  function RouteOf(req: Request): (r: Route)
    ensures r == DecoyRoute <==> req.verb == GET && req.path in HoneypotPaths
    ensures r.BlacklistDeleteRoute? ==>
      req.verb == DELETE && r.target != "" && '/' !in r.target && req.path == BlacklistItemPrefix + r.target
  {
    assert IsBlacklistItemPath(req.path) ==>
      req.path == BlacklistItemPrefix + req.path[|BlacklistItemPrefix|..];
    if req.verb == GET && req.path in HoneypotPaths then DecoyRoute
    else if req.verb == GET && req.path == "/api/logs" then LogsRoute
    else if req.verb == GET && req.path == "/api/logs/stats" then StatsRoute
    else if req.verb == GET && req.path == "/api/blacklist" then BlacklistGetRoute
    else if req.verb == POST && req.path == "/api/blacklist" then BlacklistPostRoute
    else if req.verb == DELETE && IsBlacklistItemPath(req.path) then
      BlacklistDeleteRoute(req.path[|BlacklistItemPrefix|..])
    else NoRoute
  }

  datatype Response =
    | Status(code: int)                                  // res.status(code) with an uninformative body
    | LogList(logs: seq<LogEntry>)                       // res.json(filteredLogs)
    | StatsReport(hourly: seq<Bucket>, daily: seq<Bucket>)
    | AddressList(ips: seq<string>)                      // res.json(blockedIPs)
    | Success(success: bool)                             // res.json({ success: true })
    | NotHandled                                         // no route matches; Express answers with its default 404

  /** The process state: the two arrays, and every message broadcast so far. */
  datatype ServerState = ServerState(blockedIPs: seq<string>, honeypotLogs: seq<LogEntry>, events: seq<Event>)

  const Initial := ServerState([], [], [])

  /** A decoy hit: one entry recorded, one honeypotTriggered message sent. */
  function AfterHit(st: ServerState, ip: string, path: string, now: int): (r: ServerState)
    ensures r.blockedIPs == st.blockedIPs
    ensures st.honeypotLogs <= r.honeypotLogs && |r.honeypotLogs| == |st.honeypotLogs| + 1
    ensures r.honeypotLogs[|st.honeypotLogs|] == LogEntry(ip, path, now)
    ensures st.events <= r.events && |r.events| == |st.events| + 1
    ensures r.events[|st.events|] == HoneypotTriggered(ip, path)
  {
    st.(honeypotLogs := st.honeypotLogs + [LogEntry(ip, path, now)],
        events := st.events + [HoneypotTriggered(ip, path)])
  }

  /** POST /api/blacklist: a present, non-empty address not yet listed is appended and announced. */
  function AfterAdd(st: ServerState, body: Option<string>): (r: ServerState)
    ensures r.honeypotLogs == st.honeypotLogs
    ensures st.blockedIPs <= r.blockedIPs && |r.blockedIPs| <= |st.blockedIPs| + 1
    ensures st.events <= r.events && |r.events| <= |st.events| + 1
  {
    if body.Some? && body.value != "" && body.value !in st.blockedIPs then
      st.(blockedIPs := st.blockedIPs + [body.value], events := st.events + [BlacklistAdded(body.value)])
    else st
  }

  /** DELETE /api/blacklist/:ip: the first occurrence of the address is spliced out and announced. */
  function AfterRemove(st: ServerState, target: string): (r: ServerState)
    ensures r.honeypotLogs == st.honeypotLogs
    ensures multiset(r.blockedIPs) == multiset(st.blockedIPs) - multiset{target} || r.blockedIPs == st.blockedIPs
    ensures target in st.blockedIPs ==> |r.blockedIPs| == |st.blockedIPs| - 1
    ensures target in st.blockedIPs ==>
              exists i :: 0 <= i < |st.blockedIPs| && st.blockedIPs[i] == target
                && target !in st.blockedIPs[..i] && r.blockedIPs == st.blockedIPs[..i] + st.blockedIPs[i + 1..]
    ensures target !in st.blockedIPs ==> r == st
    ensures st.events <= r.events && |r.events| <= |st.events| + 1
  {
    var index := IndexOf(st.blockedIPs, target);
    if index != -1 then
      assert RemoveAt(st.blockedIPs, index) == st.blockedIPs[..index] + st.blockedIPs[index + 1..];
      st.(blockedIPs := RemoveAt(st.blockedIPs, index), events := st.events + [BlacklistRemoved(target)])
    else st
  }

  /**
   * One request from address ip, handled to completion: the gate, then the route. now is the clock
   * reading and localTime the local time zone's reading of an instant.
   */
  function Handle(st: ServerState, ip: string, req: Request, now: int, localTime: int -> LocalTime)
    : (r: (ServerState, Response))
    ensures st.honeypotLogs <= r.0.honeypotLogs && |r.0.honeypotLogs| <= |st.honeypotLogs| + 1
    ensures |r.0.honeypotLogs| > |st.honeypotLogs| ==> r.1 == Status(404) && req.path in HoneypotPaths
    ensures st.events <= r.0.events && |r.0.events| <= |st.events| + 1
  {
    if ip in st.blockedIPs then (st, Status(403))
    else
      match RouteOf(req)
      case DecoyRoute => (AfterHit(st, ip, req.path, now), Status(404))
      case LogsRoute => (st, LogList(FilterLogs(st.honeypotLogs, req.query)))
      case StatsRoute =>
        (st, StatsReport(HistogramOf(HourKeys(st.honeypotLogs, localTime)),
                         HistogramOf(DayKeys(st.honeypotLogs, localTime))))
      case BlacklistGetRoute => (st, AddressList(st.blockedIPs))
      case BlacklistPostRoute => (AfterAdd(st, req.bodyIp), Success(true))
      case BlacklistDeleteRoute(target) => (AfterRemove(st, target), Success(true))
      case NoRoute => (st, NotHandled)
  }

  /** The gate answers 403 exactly to a listed address, and then nothing changes; no route answers 403. */
  lemma GateForbids(st: ServerState, ip: string, req: Request, now: int, localTime: int -> LocalTime)
    ensures Handle(st, ip, req, now, localTime).1 == Status(403) <==> ip in st.blockedIPs
    ensures ip in st.blockedIPs ==> Handle(st, ip, req, now, localTime).0 == st
  {
  }

  /** A decoy hit past the gate records one entry and one message, answers 404 and leaves the blocklist alone. */
  lemma DecoyHitRecorded(st: ServerState, ip: string, req: Request, now: int, localTime: int -> LocalTime)
    requires ip !in st.blockedIPs && req.verb == GET && req.path in HoneypotPaths
    ensures Handle(st, ip, req, now, localTime).1 == Status(404)
    ensures Handle(st, ip, req, now, localTime).0.honeypotLogs == st.honeypotLogs + [LogEntry(ip, req.path, now)]
    ensures Handle(st, ip, req, now, localTime).0.events == st.events + [HoneypotTriggered(ip, req.path)]
    ensures Handle(st, ip, req, now, localTime).0.blockedIPs == st.blockedIPs
  {
  }

  /** Reading the logs, the statistics or the blacklist, and unrouted requests, change no state. */
  lemma ReadOnlyRoutes(st: ServerState, ip: string, req: Request, now: int, localTime: int -> LocalTime)
    requires RouteOf(req) in {LogsRoute, StatsRoute, BlacklistGetRoute, NoRoute}
    ensures Handle(st, ip, req, now, localTime).0 == st
    ensures ip !in st.blockedIPs && RouteOf(req) == BlacklistGetRoute ==>
              Handle(st, ip, req, now, localTime).1 == AddressList(st.blockedIPs)
  {
  }

  /** GET /api/logs returns exactly the stored entries that match the query, each as often as stored. */
  lemma LogsAnswer(st: ServerState, ip: string, req: Request, now: int, localTime: int -> LocalTime)
    requires ip !in st.blockedIPs && RouteOf(req) == LogsRoute
    ensures Handle(st, ip, req, now, localTime).1.LogList?
    ensures forall e :: e in Handle(st, ip, req, now, localTime).1.logs <==> e in st.honeypotLogs && Matches(req.query, e)
    ensures IsSubsequence(Handle(st, ip, req, now, localTime).1.logs, st.honeypotLogs)
    ensures forall e ::
              multiset(Handle(st, ip, req, now, localTime).1.logs)[e] ==
              if Matches(req.query, e) then multiset(st.honeypotLogs)[e] else 0
  {
    FilterExact(st.honeypotLogs, req.query);
    forall e
      ensures e in FilterLogs(st.honeypotLogs, req.query) <==> e in st.honeypotLogs && Matches(req.query, e)
    {
      FilterMembership(st.honeypotLogs, req.query, e);
    }
    FilterIsSubsequence(st.honeypotLogs, req.query);
  }

  /**
   * GET /api/logs/stats returns a correct histogram of the entries by local hour and by local day: keys
   * ascending, each with its exact count, every entry counted once.
   */
  lemma StatsAnswer(st: ServerState, ip: string, req: Request, now: int, localTime: int -> LocalTime)
    requires ip !in st.blockedIPs && RouteOf(req) == StatsRoute
    ensures Handle(st, ip, req, now, localTime).1.StatsReport?
    ensures IsHistogram(HourKeys(st.honeypotLogs, localTime), Handle(st, ip, req, now, localTime).1.hourly)
    ensures IsHistogram(DayKeys(st.honeypotLogs, localTime), Handle(st, ip, req, now, localTime).1.daily)
    ensures Total(Handle(st, ip, req, now, localTime).1.hourly) == |st.honeypotLogs|
    ensures Total(Handle(st, ip, req, now, localTime).1.daily) == |st.honeypotLogs|
  {
    HistogramOfCorrect(HourKeys(st.honeypotLogs, localTime));
    HistogramOfCorrect(DayKeys(st.honeypotLogs, localTime));
  }

  /**
   * POST /api/blacklist keeps the list free of repeats; it lists the body's address when that is present
   * and non-empty, and announces it exactly when the list grew.
   */
  lemma AddMeaning(st: ServerState, body: Option<string>)
    requires Unique(st.blockedIPs)
    ensures Unique(AfterAdd(st, body).blockedIPs)
    ensures forall a :: a in AfterAdd(st, body).blockedIPs <==>
      a in st.blockedIPs || (body.Some? && body.value != "" && a == body.value)
    ensures AfterAdd(st, body).honeypotLogs == st.honeypotLogs
    ensures |AfterAdd(st, body).blockedIPs| > |st.blockedIPs| <==>
      body.Some? && body.value != "" && body.value !in st.blockedIPs
    ensures |AfterAdd(st, body).blockedIPs| > |st.blockedIPs| <==> AfterAdd(st, body).events != st.events
    ensures AfterAdd(st, body).events != st.events ==>
      body.Some? && AfterAdd(st, body).events == st.events + [BlacklistAdded(body.value)]
  {
    if body.Some? && body.value != "" && body.value !in st.blockedIPs {
      UniqueAppend(st.blockedIPs, body.value);
    }
  }

  /**
   * DELETE /api/blacklist/:ip keeps the list free of repeats, takes the address off it, keeps every other
   * one, and announces the removal exactly when the address was listed.
   */
  lemma RemoveMeaning(st: ServerState, target: string)
    requires Unique(st.blockedIPs)
    ensures Unique(AfterRemove(st, target).blockedIPs)
    ensures target !in AfterRemove(st, target).blockedIPs
    ensures forall a :: a != target ==> (a in AfterRemove(st, target).blockedIPs <==> a in st.blockedIPs)
    ensures AfterRemove(st, target).honeypotLogs == st.honeypotLogs
    ensures target in st.blockedIPs ==> AfterRemove(st, target).events == st.events + [BlacklistRemoved(target)]
    ensures target !in st.blockedIPs ==> AfterRemove(st, target) == st
    ensures target in st.blockedIPs ==>
              exists i :: 0 <= i < |st.blockedIPs| && st.blockedIPs[i] == target
                && AfterRemove(st, target).blockedIPs == st.blockedIPs[..i] + st.blockedIPs[i + 1..]
  {
    var index := IndexOf(st.blockedIPs, target);
    if index != -1 {
      UniqueRemoveAt(st.blockedIPs, index);
    }
  }

  /** Deleting the same address twice has the effect of deleting it once. */
  lemma RemoveIdempotent(st: ServerState, target: string)
    requires Unique(st.blockedIPs)
    ensures AfterRemove(AfterRemove(st, target), target) == AfterRemove(st, target)
  {
    RemoveMeaning(st, target);
  }

  /** Once an address is posted to the blacklist, every request from that address is answered 403. */
  lemma PostThenForbidden(st: ServerState, ip: string, post: Request, now: int, localTime: int -> LocalTime,
                          req: Request, later: int)
    requires ip !in st.blockedIPs && RouteOf(post) == BlacklistPostRoute
    requires post.bodyIp.Some? && post.bodyIp.value != ""
    ensures Handle(Handle(st, ip, post, now, localTime).0, post.bodyIp.value, req, later, localTime).1 == Status(403)
  {
    var next := Handle(st, ip, post, now, localTime).0;
    assert post.bodyIp.value in next.blockedIPs;
  }

  /**
   * The backend's own POST does not exempt the local host: posting the IPv4 loopback address locks the
   * local host out of every route.
   */
  lemma LoopbackNotExempt(st: ServerState, now: int, localTime: int -> LocalTime, req: Request)
    requires "127.0.0.1" !in st.blockedIPs
    ensures Handle(Handle(st, "127.0.0.1", Request(POST, "/api/blacklist", NoQuery, Some("127.0.0.1")), now, localTime).0,
                   "127.0.0.1", req, now, localTime).1 == Status(403)
  {
    PostThenForbidden(st, "127.0.0.1", Request(POST, "/api/blacklist", NoQuery, Some("127.0.0.1")), now, localTime, req, now);
  }

  /** After a DELETE of an address, requests from it pass the gate again. */
  lemma DeleteThenAdmitted(st: ServerState, ip: string, del: Request, now: int, localTime: int -> LocalTime,
                           req: Request, later: int)
    requires Unique(st.blockedIPs) && ip !in st.blockedIPs && RouteOf(del).BlacklistDeleteRoute?
    ensures Handle(Handle(st, ip, del, now, localTime).0, RouteOf(del).target, req, later, localTime).1 != Status(403)
  {
    var target := RouteOf(del).target;
    var next := Handle(st, ip, del, now, localTime).0;
    assert next == AfterRemove(st, target);
    RemoveMeaning(st, target);
    GateForbids(next, target, req, later, localTime);
  }

  /** The honeypotTriggered messages among the broadcasts, in broadcast order. */
  function Triggered(events: seq<Event>): (r: seq<Event>)
    ensures |r| <= |events|
    ensures forall i :: 0 <= i < |r| ==> r[i].HoneypotTriggered?
  {
    if events == [] then []
    else (if events[0].HoneypotTriggered? then [events[0]] else []) + Triggered(events[1..])
  }

  /** Each honeypotTriggered message is picked out as often as it was broadcast, and nothing else is. */
  lemma {:induction false} TriggeredExact(events: seq<Event>)
    ensures forall e :: multiset(Triggered(events))[e] == if e.HoneypotTriggered? then multiset(events)[e] else 0
  {
    if events != [] {
      TriggeredExact(events[1..]);
      assert events == [events[0]] + events[1..];
    }
  }

  /** The picked-out messages keep their broadcast order. */
  lemma {:induction false} TriggeredInOrder(events: seq<Event>)
    ensures IsSubsequence(Triggered(events), events)
  {
    if events != [] {
      var rest := Triggered(events[1..]);
      TriggeredInOrder(events[1..]);
      if events[0].HoneypotTriggered? {
        assert Triggered(events) == [events[0]] + rest;
        assert Triggered(events)[1..] == rest;
      } else {
        assert Triggered(events) == rest;
      }
    }
  }

  /** The message each recorded hit was announced with, in log order. */
  function Announcements(logs: seq<LogEntry>): seq<Event>
  {
    seq(|logs|, i requires 0 <= i < |logs| => HoneypotTriggered(logs[i].ip, logs[i].path))
  }

  /**
   * What every reachable state satisfies: the blocklist has no repeats, every entry is a hit on a decoy
   * path, and the honeypotTriggered broadcasts are exactly the entries, one per entry, in order.
   */
  ghost predicate Inv(st: ServerState)
  {
    && Unique(st.blockedIPs)
    && (forall i :: 0 <= i < |st.honeypotLogs| ==> st.honeypotLogs[i].path in HoneypotPaths)
    && Triggered(st.events) == Announcements(st.honeypotLogs)
  }

  lemma {:induction false} TriggeredAppend(events: seq<Event>, e: Event)
    ensures Triggered(events + [e]) == Triggered(events) + (if e.HoneypotTriggered? then [e] else [])
  {
    var all := events + [e];
    if events == [] {
      assert all[1..] == [];
    } else {
      assert all[0] == events[0];
      assert all[1..] == events[1..] + [e];
      TriggeredAppend(events[1..], e);
    }
  }

  /** Every request, from any address, keeps the invariant. */
  lemma HandleKeepsInv(st: ServerState, ip: string, req: Request, now: int, localTime: int -> LocalTime)
    requires Inv(st)
    ensures Inv(Handle(st, ip, req, now, localTime).0)
  {
    if ip !in st.blockedIPs {
      match RouteOf(req)
      case DecoyRoute =>
        var next := AfterHit(st, ip, req.path, now);
        TriggeredAppend(st.events, HoneypotTriggered(ip, req.path));
        assert Announcements(next.honeypotLogs) == Announcements(st.honeypotLogs) + [HoneypotTriggered(ip, req.path)];
      case BlacklistPostRoute =>
        AddMeaning(st, req.bodyIp);
        if AfterAdd(st, req.bodyIp) != st {
          TriggeredAppend(st.events, BlacklistAdded(req.bodyIp.value));
        }
      case BlacklistDeleteRoute(target) =>
        RemoveMeaning(st, target);
        if target in st.blockedIPs {
          TriggeredAppend(st.events, BlacklistRemoved(target));
        }
      case _ =>
    }
  }

  /** One request as it reaches the server: the peer address, the request and the clock reading. */
  datatype Arrival = Arrival(ip: string, req: Request, now: int)

  /** The state after a series of requests, first to last. */
  function HandleAll(st: ServerState, arrivals: seq<Arrival>, localTime: int -> LocalTime): ServerState
    decreases |arrivals|
  {
    if arrivals == [] then st
    else
      var a := arrivals[0];
      HandleAll(Handle(st, a.ip, a.req, a.now, localTime).0, arrivals[1..], localTime)
  }

  /** Every state reached from the initial one by any series of requests satisfies the invariant. */
  lemma {:induction false} ReachableInv(st: ServerState, arrivals: seq<Arrival>, localTime: int -> LocalTime)
    requires Inv(st)
    ensures Inv(HandleAll(st, arrivals, localTime))
    decreases |arrivals|
  {
    if arrivals != [] {
      var a := arrivals[0];
      HandleKeepsInv(st, a.ip, a.req, a.now, localTime);
      ReachableInv(Handle(st, a.ip, a.req, a.now, localTime).0, arrivals[1..], localTime);
    }
  }

  lemma InitialInv()
    ensures Inv(Initial)
  {
  }

  /** The arrays and variables of the running process. */
  class HoneypotServer {

    var blockedIPs: seq<string>
    var honeypotLogs: seq<LogEntry>
    ghost var events: seq<Event>

    ghost function State(): ServerState
      reads this
    {
      ServerState(blockedIPs, honeypotLogs, events)
    }

    ghost predicate Valid()
      reads this
    {
      Unique(blockedIPs)
    }

    constructor ()
      ensures Valid() && State() == Initial
    {
      blockedIPs := [];
      honeypotLogs := [];
      events := [];
    }

    /** broadcast: the message goes out to every client; here it is recorded. */
    method Broadcast(e: Event)
      modifies this`events
      ensures events == old(events) + [e]
    {
      events := events + [e];
    }

    /** The decoy handler: record the access, announce it, answer 404. */
    method HoneypotHit(ip: string, path: string, now: int) returns (code: int)
      modifies this
      ensures State() == AfterHit(old(State()), ip, path, now)
      ensures code == 404
    {
      honeypotLogs := honeypotLogs + [LogEntry(ip, path, now)];
      Broadcast(HoneypotTriggered(ip, path));
      code := 404;
    }

    /** GET /api/logs/stats: one pass over the log counting per hour and per day, then keys sorted. */
    method Stats(localTime: int -> LocalTime) returns (hourly: seq<Bucket>, daily: seq<Bucket>)
      ensures hourly == HistogramOf(HourKeys(honeypotLogs, localTime))
      ensures daily == HistogramOf(DayKeys(honeypotLogs, localTime))
    {
      var hourlyCounts, hourOrder, dailyCounts, dayOrder := TallyLogs(honeypotLogs, localTime);
      hourly := SortedBuckets(HourKeys(honeypotLogs, localTime), hourlyCounts, hourOrder);
      daily := SortedBuckets(DayKeys(honeypotLogs, localTime), dailyCounts, dayOrder);
    }

    /** POST /api/blacklist. */
    method PostBlacklist(body: Option<string>) returns (resp: Response)
      requires Valid()
      modifies this
      ensures Valid()
      ensures State() == AfterAdd(old(State()), body)
      ensures resp == Success(true)
    {
      if body.Some? && body.value != "" && body.value !in blockedIPs {
        UniqueAppend(blockedIPs, body.value);
        blockedIPs := blockedIPs + [body.value];
        Broadcast(BlacklistAdded(body.value));
      }
      resp := Success(true);
    }

    /** DELETE /api/blacklist/:ip. */
    method DeleteBlacklist(target: string) returns (resp: Response)
      requires Valid()
      modifies this
      ensures Valid()
      ensures State() == AfterRemove(old(State()), target)
      ensures resp == Success(true)
    {
      var index := IndexOf(blockedIPs, target);
      if index != -1 {
        UniqueRemoveAt(blockedIPs, index);
        blockedIPs := RemoveAt(blockedIPs, index);
        Broadcast(BlacklistRemoved(target));
      }
      resp := Success(true);
    }

    /** One request from address ip: the blocklist middleware, then the route it reaches. */
    method Serve(ip: string, req: Request, now: int, localTime: int -> LocalTime) returns (resp: Response)
      requires Valid()
      modifies this
      ensures Valid()
      ensures (State(), resp) == Handle(old(State()), ip, req, now, localTime)
    {
      if ip in blockedIPs {
        return Status(403);
      }
      match RouteOf(req)
      case DecoyRoute =>
        var code := HoneypotHit(ip, req.path, now);
        resp := Status(code);
      case LogsRoute =>
        resp := LogList(FilterLogs(honeypotLogs, req.query));
      case StatsRoute =>
        var hourly, daily := Stats(localTime);
        resp := StatsReport(hourly, daily);
      case BlacklistGetRoute =>
        resp := AddressList(blockedIPs);
      case BlacklistPostRoute =>
        resp := PostBlacklist(req.bodyIp);
      case BlacklistDeleteRoute(target) =>
        resp := DeleteBlacklist(target);
      case NoRoute =>
        resp := NotHandled;
    }
  }
}
