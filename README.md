# SecureDIY honeypot backend, modelled in Dafny

SecureDIY is a small honeypot. An Express server exposes three decoy paths
(`/admin`, `/secret`, `/hidden`). Each GET of a decoy records the caller's
address, the path and the time, tells every WebSocket client, and answers an
uninformative 404. A blocklist gate answers 403 to every listed address before
any route runs. Administration endpoints let a dashboard do four things:

- query the records, filtered by address, by path and by time range;
- fetch per-hour and per-day counts of hits;
- list the blacklist;
- add addresses to the blacklist and remove them.

The backend also has two stand-alone store modules. `backend/blocklist.js` is a
set of blocked addresses that refuses the local host's own addresses.
`backend/logs.js` is an append-only log read back newest first. `index.js` does
not use them: it keeps arrays of its own.

The model follows the source file by file.

| Module | File | What it holds |
|---|---|---|
| `Blocklist` | `blocklist.dfy` | `BlocklistStore` class over a `set<string>`, with the pure step function `Step` over commands and the lemmas about it. |
| `Logs` | `logs.dfy` | `LogStore` class. `AddLog` appends; `GetLogs` is a pure function that sorts a copy newest first (an insertion sort). |
| `LogFilter` | `log_filter.dfy` | The `/api/logs` query as a predicate `Matches` and the filter `FilterLogs`. |
| `DateKeys` | `date_keys.dfy` | The hour keys (`YYYY-MM-DD HH:00`) and day keys (`YYYY-MM-DD`), assembled the way the handler concatenates them. |
| `Histogram` | `histogram.dfy` | The counting dictionaries of `/api/logs/stats`. `Tallied` states what a dictionary filled from a key sequence holds, and `HistogramOf` states what the sorted result must be. |
| `LogStats` | `log_stats.dfy` | The `forEach` pass over the log as a loop. |
| `Server` | `server.dfy` | The process state. |

The helper modules are:

- `Seqs`: uniqueness, `indexOf`, `splice` and subsequences.
- `Strings`: `includes`, ASCII `toLowerCase`, `String(n)` and `padStart(2, '0')`.
- `StringOrder`: the default order of `Array.prototype.sort` on strings, and an insertion sort.
- `Wrappers`: `Option`.

The `Server` module holds the process state:

- The `ServerState` record holds the two arrays and the sequence of broadcast messages.
- `Handle` specifies one request end to end: the gate, then the route.
- The `HoneypotServer` class has the two arrays as fields and the broadcasts as a ghost field.
- Its handlers are methods. `Serve` is proved to do exactly what `Handle` says.
- `Inv` is an invariant of every reachable state. It says three things: the blacklist has no repeats, every record is a decoy hit, and the `honeypotTriggered` broadcasts are exactly the records, in order.

Time is an integer the caller supplies. Reading an instant in the server's
local time zone is a function parameter `localTime` that yields year, month,
day and hour. The clock is the parameter `now`.

`index.js` differs from `backend/blocklist.js`, and the model keeps these behaviours as written:

- `blocklist.js` never blocks an address of `LOCAL_IPS` (blocklist.js:5,19). The `index.js` gate has no such exemption: it answers 403 to any listed address, local or not (index.js:25).
- POST `/api/blacklist` in `index.js` lists any non-empty address, the loopback included (index.js:128); `Server.LoopbackNotExempt` shows the consequence.
- POST always answers `{success: true}`, even when `ip` is missing or already listed. The handler itself never answers 400. The 400 that `express.json` sends for a malformed JSON body comes before the handler and is not modelled.
- Every decoy answers 404.

## Model

| member | source | states |
|---|---|---|
| `Blocklist.IsLocal` | backend/blocklist.js:5-10 | `isLocal` is true for exactly `::1`, `127.0.0.1` and `::ffff:127.0.0.1`. |
| `Blocklist.BlocklistStore.IsBlocked` | backend/blocklist.js:13-15 | `isBlocked` is membership in the set, and in a valid store no local address is blocked. |
| `Blocklist.BlockMeaning` | backend/blocklist.js:18-23 | Blocking adds the address unless it is local, and adds nothing else. Blocking a local address leaves the set unchanged. |
| `Blocklist.UnblockMeaning` | backend/blocklist.js:26-29 | Unblocking removes the address and keeps every other one. Unblocking an absent address changes nothing. |
| `Blocklist.StepIdempotent` | backend/blocklist.js:18-29 | Blocking twice equals blocking once, and so does unblocking. |
| `Blocklist.StepKeepsNoLocal` | backend/blocklist.js:5-29 | `blockIP` and `unblockIP` each keep local addresses out of the set. |
| `Blocklist.RunKeepsNoLocal` | backend/blocklist.js:2-29 | After any series of calls from a set with no local address, no local address is blocked. |
| `Blocklist.BlocklistStore.constructor` | backend/blocklist.js:2 | The store starts empty and valid. |
| `Blocklist.BlocklistStore.BlockIP` | backend/blocklist.js:18-23 | The new set is `Step(old, Block(ip))`, the invariant is kept, and a non-local address is then blocked. |
| `Blocklist.BlocklistStore.UnblockIP` | backend/blocklist.js:26-29 | The new set is `Step(old, Unblock(ip))`, the invariant is kept, and the address is no longer blocked. |
| `Blocklist.BlocklistStore.GetBlockedIPs` | backend/blocklist.js:32-34 | Each blocked address appears once, nothing else appears, and no local address appears. |
| `Blocklist.BlockListUnblock` | backend/blocklist.js:13-34 | Block, list, unblock, list: both listings are returned. The first holds the address, the second does not. The second holds exactly the addresses blocked before, other than this one, and the store ends as the old set minus the address. |
| `Logs.InsertByTime` | backend/logs.js:18 | Insertion adds exactly the one entry and keeps newest-first order. |
| `Logs.SortNewestFirst` | backend/logs.js:18 | The copy is a permutation of the log (same length, same multiset) ordered by non-increasing time. |
| `Logs.SortNewestFirstKeepsSorted` | backend/logs.js:18 | A log already newest first comes back unchanged, so sorting is idempotent. |
| `Logs.LogStore.constructor` | backend/logs.js:2 | The store starts empty. |
| `Logs.LogStore.AddLog` | backend/logs.js:5-13 | The store grows by exactly one entry, placed last, with the given address, path and time. Earlier entries are unchanged. |
| `Logs.LogStore.GetLogs` | backend/logs.js:16-20 | Reads the store without changing it. Returns the same entries as a multiset, newest first. |
| `Logs.AddAll` | backend/logs.js:2-18 | From an empty store, N calls of `addLog` leave exactly those N entries in call order, and `getLogs` returns N entries. |
| `LogFilter.Matches` | backend/index.js:61-80 | The filter callback. With no parameter in effect every entry matches. A match on an ip parameter means the parameter is no longer than the entry's address. A match under both bounds means start ≤ end. |
| `LogFilter.FilterLogs` | backend/index.js:61-81 | The result is never longer than the log. |
| `LogFilter.FilterExact` | backend/index.js:54-81 | Each entry appears in the result as often as in the log if it passes every predicate in effect, otherwise never. The predicates are: ip substring, case-insensitive type substring, and inclusive start/end bounds that do not apply when absent or 0. |
| `LogFilter.FilterMembership` | backend/index.js:61-81 | An entry is returned if and only if it is stored and matches the query. |
| `LogFilter.FilterIsSubsequence` | backend/index.js:61-82 | The result preserves store order: it is a subsequence of the log. |
| `LogFilter.FilterNoParameters` | backend/index.js:54-81 | A query with no parameter in effect returns the whole log. |
| `LogFilter.KindIgnoresCase` | backend/index.js:58-71 | Lower-casing the type parameter does not change which entries match. |
| `Strings.Contains` | backend/index.js:68-71 | `includes`: only a string no longer than s occurs in s, and the empty string and s itself always do. |
| `Strings.ToLower` | backend/index.js:58-65 | ASCII `toLowerCase` keeps the length and lowers each character. |
| `Strings.ToLowerIdempotent` | backend/index.js:58-65 | Lowering twice equals lowering once. |
| `Strings.NatToString` | backend/index.js:92-99 | `String(n)` is one or more decimal digits, a single digit exactly when n < 10, and starts with `0` only for 0 itself (no leading zeros). |
| `Strings.ParseNatToString` | backend/index.js:92-99 | Reading back the digits of `String(n)` gives n. |
| `Strings.IntToStringInjective` | backend/index.js:92-99 | Distinct years give distinct `String(year)`. |
| `Strings.IntToString` | backend/index.js:92-99 | `String(n)` is non-empty. It starts with `-` exactly when n < 0, followed by the decimal numeral of -n, which reads back as -n. Otherwise it is all digits and reads back as n. |
| `Strings.PadStart2` | backend/index.js:93-99 | `padStart(2, '0')` makes the string two characters long when shorter and otherwise keeps its length. |
| `Strings.PadStart2Pads` | backend/index.js:93-99 | The padded string ends with the original one, and every character in front of it is `0`. |
| `Strings.PadStart2TwoDigits` | backend/index.js:93-95 | For 0 ≤ n < 100, `String(n).padStart(2, '0')` is the two digits of n. |
| `StringOrder.LessIrreflexive` | backend/index.js:109 | The default sort order is irreflexive. |
| `StringOrder.LessAsymmetric` | backend/index.js:109 | The default sort order is asymmetric. |
| `StringOrder.LessTransitive` | backend/index.js:109 | The default sort order is transitive. |
| `StringOrder.LessTotal` | backend/index.js:109 | Of two distinct strings, one sorts before the other. |
| `StringOrder.Insert` | backend/index.js:109 | Insertion adds exactly one element, keeps the list sorted, and keeps it strictly ascending when the element is new. |
| `StringOrder.Sort` | backend/index.js:109 | `sort()` of the keys gives a sorted permutation, strictly ascending when the keys have no repeats. |
| `Histogram.HistogramOf` | backend/index.js:109-116 | The statistics have at most one bucket per entry, and none exactly when there are no entries. |
| `Histogram.FirstOccurrences` | backend/index.js:103-109 | `Object.keys` of a dictionary filled from a key sequence holds each key of the sequence exactly once. |
| `Histogram.HistogramOfCorrect` | backend/index.js:90-116 | The statistics are a histogram of the keys, with three properties. (1) The keys are strictly ascending, so they are unique. (2) Each key carries its exact count. (3) No key is missing, every count is at least 1, and the counts add up to the number of entries. |
| `Histogram.TallyStep` | backend/index.js:103-105 | `counts[k] = (counts[k] \|\| 0) + 1` has two cases. A new key is added last with count 1. A known key goes up by one. |
| `Histogram.Increment` | backend/index.js:103-105 | One increment turns the dictionary filled from ks into the one filled from ks + [key]. |
| `Histogram.TalliedHistogram` | backend/index.js:109-116 | Sorting the keys of the filled dictionary and pairing each with its count gives exactly `HistogramOf`. |
| `Histogram.SortedBuckets` | backend/index.js:109-116 | `Object.keys(counts).sort().map(...)` returns `HistogramOf` of the counted keys. |
| `DateKeys.HourKey` | backend/index.js:92-95 | The hour key starts with the day key and a space, and ends with `:00`. |
| `DateKeys.DayKey` | backend/index.js:97-99 | The day key starts with `String(year)` and `-`. |
| `DateKeys.KeyLayout` | backend/index.js:92-99 | A day key is the year, `-`, the month counted from 1, `-`, and the day, each part after the year zero-padded to two digits. An hour key is the day key followed by ` HH:00`. |
| `DateKeys.TwoDigitsInjective` | backend/index.js:93-99 | Distinct two-digit fields are written differently. |
| `DateKeys.DayKeyInjective` | backend/index.js:97-99 | Equal day keys mean the same year, month and day. |
| `DateKeys.HourKeyInjective` | backend/index.js:92-95 | Equal hour keys mean the same year, month, day and hour. |
| `DateKeys.SameHourSameDay` | backend/index.js:92-99 | Entries in one hour bucket fall in one day bucket. |
| `LogStats.TallyLogs` | backend/index.js:90-106 | After one pass over the log, each of the two dictionaries holds, for every hour key (or day key) of the log's entries, its exact number of occurrences. Its key order is the order of first occurrence. |
| `Seqs.IndexOf` | backend/index.js:141 | Returns -1 exactly when the address is absent. Otherwise returns the first index that holds it. |
| `Seqs.RemoveAt` | backend/index.js:143 | `splice(i, 1)` removes exactly the element at i and keeps the order of the rest. |
| `Seqs.UniqueAppend` | backend/index.js:128-129 | Pushing an absent address keeps the list free of repeats. |
| `Seqs.UniqueRemoveAt` | backend/index.js:141-143 | Splicing out an element of a repeat-free list removes it entirely and keeps the others. |
| `Server.RouteOf` | backend/index.js:32-33 | A request reaches the decoy handler exactly when it is a GET of one of the three decoy paths. |
| `Server.AfterHit` | backend/index.js:34-46 | A decoy hit leaves the blacklist alone. It appends exactly one log entry, `LogEntry(ip, path, now)`, and exactly one `honeypotTriggered` message with that address and path. |
| `Server.AfterAdd` | backend/index.js:127-134 | POST leaves the log alone. The blacklist and the messages each keep their old contents as a prefix and grow by at most one. |
| `Server.AfterRemove` | backend/index.js:140-148 | DELETE leaves the log alone. When the target is listed, the new blacklist is the old one with its first occurrence spliced out, the rest in their old order. When it is not listed, the whole state is unchanged. The messages keep their old contents as a prefix and grow by at most one. |
| `Server.Handle` | backend/index.js:24-150 | No request rewrites history. The log and the messages each keep their old contents as a prefix and grow by at most one. The log grows only on a decoy path, and then the answer is 404. |
| `Server.GateForbids` | backend/index.js:24-29 | The answer is 403 exactly when the caller is listed. In that case nothing changes: no entry is logged and no message is sent. |
| `Server.DecoyHitRecorded` | backend/index.js:32-50 | A decoy hit past the gate appends one entry with the caller's address, the path and the time, and sends one `honeypotTriggered` message with that address and path. It answers 404 and leaves the blacklist unchanged. |
| `Server.ReadOnlyRoutes` | backend/index.js:53-123 | GET of the logs, the stats or the blacklist changes no state, and GET `/api/blacklist` past the gate answers the blacklist array as it stands. |
| `Server.LogsAnswer` | backend/index.js:53-83 | `/api/logs` returns exactly the stored entries that match, each as often as it is stored, as a subsequence of the log. |
| `Server.StatsAnswer` | backend/index.js:86-118 | The hourly and daily answers are each a correct histogram of the local hour and day keys of the entries, and each sums to the number of entries. |
| `Server.AddMeaning` | backend/index.js:126-136 | POST keeps the list free of repeats and lists the body's address when it is present and non-empty. The list grows exactly when that address was absent, and `blacklistAdded` is sent exactly then. |
| `Server.RemoveMeaning` | backend/index.js:139-150 | DELETE keeps the list free of repeats, removes the address and keeps the others in their old order. It sends `blacklistRemoved` when the address was listed; otherwise it changes nothing. |
| `Server.RemoveIdempotent` | backend/index.js:139-150 | Deleting twice has the effect of deleting once. |
| `Server.PostThenForbidden` | backend/index.js:24-29 | After a POST of an address, every request from that address is answered 403. |
| `Server.LoopbackNotExempt` | backend/index.js:126-129 | POSTing `127.0.0.1` locks the local host out of every route. |
| `Server.DeleteThenAdmitted` | backend/index.js:139-148 | After a DELETE of an address, requests from it pass the gate. |
| `Server.Triggered` | backend/index.js:46 | The picked-out messages are all `honeypotTriggered`, and there are no more of them than broadcasts. |
| `Server.TriggeredExact` | backend/index.js:46 | Each `honeypotTriggered` message is picked out as often as it was broadcast, and nothing else is picked out. |
| `Server.TriggeredInOrder` | backend/index.js:46 | The picked-out messages keep their broadcast order. |
| `Server.HandleKeepsInv` | backend/index.js:20-150 | Every request, from any address to any path, keeps the invariant `Inv`. |
| `Server.ReachableInv` | backend/index.js:20-150 | After any series of requests from a state satisfying `Inv`, `Inv` still holds. |
| `Server.InitialInv` | backend/index.js:20-21 | The initial empty state satisfies `Inv`. |
| `Server.HoneypotServer.constructor` | backend/index.js:20-21 | The process starts with both arrays empty and no broadcast. |
| `Server.HoneypotServer.Broadcast` | backend/index.js:164-171 | A broadcast appends its message to the messages sent so far. |
| `Server.HoneypotServer.HoneypotHit` | backend/index.js:33-50 | The decoy handler changes the state as `AfterHit` says and answers 404. |
| `Server.HoneypotServer.Stats` | backend/index.js:86-118 | The hourly and daily answers are `HistogramOf` of the entries' hour keys and day keys. |
| `Server.HoneypotServer.PostBlacklist` | backend/index.js:126-136 | POST changes the state as `AfterAdd` says, keeps the list free of repeats, and answers success. |
| `Server.HoneypotServer.DeleteBlacklist` | backend/index.js:139-150 | DELETE changes the state as `AfterRemove` says, keeps the list free of repeats, and answers success. |
| `Server.HoneypotServer.Serve` | backend/index.js:24-150 | The gate and the route it reaches: the new state and the response are exactly `Handle` of the old state. |

## Left out

- Blocklist.BlocklistStore.GetBlockedIPs: a JavaScript Set lists its members in insertion order. The model keeps the set as a `set<string>`, so it does not state that order.
- Logs.SortNewestFirst: JavaScript's sort is stable, but stability is not stated. The insertion sort does place a new entry in front of entries with the same time.
- Transport:
  - The WebSocket server, the connection handler and the send loop of `broadcast`, including the test of each client's ready state. A broadcast is modelled as appending its message to `events`.
  - JSON serialisation of messages and responses.
  - Response bodies other than the status code (`'Forbidden'`, the empty 404 body).
- Express plumbing:
  - `cors`, `express.json` (including its 400 answer to a malformed JSON body) and the debug request logger.
  - Answers given before the gate: `cors()` answers every OPTIONS request itself with 204, and `express.json()` answers a malformed JSON body with 400. Both run before the gate (index.js:8,10 against 24-29), so a listed address can get 204 or 400 instead of 403. Requests are only GET, POST or DELETE; PUT, PATCH and OPTIONS are not modelled.
  - How `req.ip` is derived: the peer address is a parameter.
  - Route matching: case-insensitive paths and trailing slashes are not modelled. Express also runs `app.get` handlers for HEAD requests, so a HEAD of a decoy path logs and broadcasts too. The model routes only GET to the decoy handler.
  - URI decoding of the `:ip` parameter.
  - Body and query values that are not strings, such as arrays or numbers.
- Dates and times:
  - `new Date()`, `toISOString`, `toLocaleString('zh-CN')` and re-reading a stored time with `new Date(log.time)`. Time is an integer.
  - The local-time decomposition, which is a supplied function.
  - Times that fail to parse. They give `NaN`, and both `NaN < startTime` and `NaN > endTime` are false (backend/index.js:74,77). So a `NaN`-time entry passes every time bound, and it produces `NaN` keys.
  - `Number(start)` and `Number(end)`: a bound is an already parsed `Option<int>`, and 0 means the bound is absent, as it is falsy in JavaScript.
- `toLowerCase` beyond ASCII: only A-Z are lowered.
- String sort order: the default sort compares UTF-16 code units, while the model compares Dafny characters. The two agree on the ASCII keys produced here.
- The filter's use of a `type` field on an entry: entries carry only ip, path and time, so the path is always used. The filter's `log.ip || ''` fallbacks are not modelled either: entries always have both fields.
- Console logging, `server.listen` and the port constant.
- The frontend and its own local-address display check.
