# pysnoop ingestion core, in Dafny

pysnoop is a small monitoring system. Agents collect metrics on a host,
sign each one and send it as a line of JSON over a TLS connection. A
server checks each line and answers `ACK` or `ERROR: <reason>`. The
checks are: the message's fields and types, the agent's token against a
token registry, and an HMAC-SHA256 signature over the message. The
server then queues a log entry for a dated `.jsonl` file and updates an
in-memory cache of the latest value per URI.

The repository holds four generations of that server, which share the
helpers below. This project models them:

- **Message validators.**
  - `parse_message` in server/utils/message.py is an ordered field and type check. It normalises the timestamp and attaches `ts_datetime`.
  - The looser version in server/core/utils/message.py.
- **Token authentication.**
  - apps/server/auth/session.py: a registry read once from a JSON file, with an expiry window and an HMAC-SHA256 check.
  - core/auth/session.py: a self-contained `user:exp:sig` token.
- **Stores.**
  - `MetricCache`: last write wins.
  - `URITree`: a path trie.
  - `MetricStorage`: a list of points per URI.
  - `LogWriter`: a FIFO queue drained into `metrics-YYYYMMDD.jsonl`.
  - The query side of those logs.
- **The per-line step of `handle_client`** in each of apps/server/main.py, server/main.py, server/app/main.py and core/app/main.py.
  - Each is a function `(state, line) -> (state', effect)` with the stores as explicit state.
  - A class holds the same stores and runs the connection's loop against it.
- **The agent side.**
  - `sign_message`, the message and wire line built for each metric, and the send loop of apps/agents/main.py.
  - The process-name sanitiser and top-5 selection of apps/collectors/top_processes.py.

Library code the core calls is uninterpreted. Each such function is a
field of a `Runtime.Platform` value that operations receive as a
parameter:

- `json.loads`;
- `datetime.fromisoformat` and `isoformat`;
- float and string rendering inside `json.dumps`;
- HMAC-SHA256, base64url, `strptime`, and `str.isalnum` beyond ASCII.

`json.dumps` itself is written out (`Json.Dumps`), including the fact
that it raises on a `datetime`. That fact decides the findings below.

Other modelling choices:

- Time is an integer instant, or a `real` for `time.time()`.
- "Now" is a parameter; a connection gets a clock `nat -> int` indexed by line number.
- A Python exception is either an `Outcome.Raised` / `Uncaught` value or the `Closed` effect, depending on where the source catches it.

## Model

| member | source | states |
|---|---|---|
| Message.CheckFields | server/utils/message.py:25-46 | The field loop passes exactly when every listed field is present with an admitted type; on a non-dictionary it never passes a non-empty list |
| Message.WellTypedIff | server/utils/message.py:25-32 | The ordered field table is exactly: `type`, `uri`, `ts`, `token`, `signature` strings and `value` an int or float |
| Message.ParseMessage | server/utils/message.py:16-72 | Invalid JSON gives "Invalid JSON message"; a success was decoded from an object, is well typed, has a `ts` that parses after `Z` becomes `+00:00`, keeps the sensitive-URI rule, and is the input with `ts_datetime` (UTC-normalised) added and nothing else changed |
| Message.ParseAcceptsExactly | server/utils/message.py:16-70 | `parse_message` returns exactly for decoded objects with the six typed fields, a parseable `ts` and no non-int value under `/sensitive/` |
| Message.Stamped | server/utils/message.py:49-54 | The returned dictionary keeps its six typed fields and holds a `datetime` under `ts_datetime` |
| Message.ParsesToStamped | server/utils/message.py:51-70 | An acceptable decoded object is returned as itself plus `ts_datetime` |
| Message.CheckFieldsReaches | server/utils/message.py:34-46 | When the fields before the i-th pass, the loop's outcome is decided from the i-th field on |
| Message.FirstMissingFieldReported | server/utils/message.py:34-36 | Fields are checked in the order type, uri, ts, value, token, signature; the first missing one is reported by name |
| Message.FirstMistypedFieldReported | server/utils/message.py:40-46 | A present field of the wrong type, after the earlier fields pass, is reported with its name, class info and Python type name |
| Message.BadTimestampReported | server/utils/message.py:49-58 | A `ts` that `fromisoformat` rejects is reported with the original text and the parser's message |
| Message.SensitiveFloatRejected | server/utils/message.py:64-68 | Under `/sensitive/` a float value is refused although it passed the number check |
| Message.NonObjectRejected | server/utils/message.py:21-40 | A decoded list or string lacking `"type"` reports that field missing; every other non-object raises an uncaught `TypeError` |
| LegacyMessage.AllPresent | server/core/utils/message.py:14 | On a dictionary, the `all(k in msg ...)` test is true exactly when every key is present; it raises exactly on values where `in` is undefined |
| LegacyMessage.ParseMessage | server/core/utils/message.py:10-23 | Invalid JSON is wrapped as "Invalid message: …"; a success returns the decoded object unchanged, and that object is acceptable |
| LegacyMessage.LegacyAcceptsExactly | server/core/utils/message.py:10-21 | The older parser returns exactly the decoded objects with `type`, `uri`, `ts`, `value`, a numeric value and a parseable string `ts`; token and signature are not required |
| LegacyMessage.MissingReportedFirst | server/core/utils/message.py:14-15 | A missing required field gives "Missing required fields", before the value is looked at |
| LegacyMessage.NumericCheckedBeforeTimestamp | server/core/utils/message.py:17-18 | With all four fields present, a non-numeric value gives "Value must be numeric" before the timestamp is parsed |
| LegacyMessage.NonStringTimestampEscapes | server/core/utils/message.py:20-23 | A non-string `ts` makes `replace` raise `AttributeError`, which the parser does not catch |
| Json.SortedKeys | apps/server/main.py:80-82 | `sort_keys=True` lists every key once, in increasing code-point order |
| Json.DumpsDefinedIffJson | apps/server/main.py:80-82 | `json.dumps` succeeds exactly on values with no `datetime` inside |
| Json.CanonicalPayloadDefinedIff | apps/server/main.py:80-82 | The compact, sorted payload can be built exactly when no field holds a `datetime` |
| Json.ObjectBraces | apps/agents/main.py:213 | A serialised dictionary starts with `{` and ends with `}` |
| Session.Loaded | apps/server/auth/session.py:20-49 | Reading the registry sets the success flag exactly when the file exists and decodes; a failure leaves `{}`; a file holding `null` leaves nothing cached |
| Session.TokenRegistry.Load | apps/server/auth/session.py:18-51 | The file is read only while nothing is cached; afterwards both globals stay as they are, whatever the file says |
| Session.TokenRegistry.VerifyToken | apps/server/auth/session.py:54-135 | Loads the registry, then answers as `CheckToken` on the loaded registry |
| Session.TokenRegistry.VerifyHmac | apps/server/auth/session.py:152-171 | Loads the registry, then answers as `CheckHmac` on the loaded registry |
| Session.RegistryTime | apps/server/auth/session.py:82-94 | A time without a trailing `Z` is aware after reading, and a naive one counts as UTC; reading fails exactly when `fromisoformat` fails on the (rewritten) text |
| Session.CheckToken | apps/server/auth/session.py:54-135 | A returned user id is the truthy `user_id` of the token's own entry in the registry |
| Session.GetSecret | apps/server/auth/session.py:138-149 | A truthy secret comes from the token's entry |
| Session.ExpectedSignature | apps/server/auth/session.py:165-167 | The expected signature is ASCII hex text |
| Session.UnknownTokenRejected | apps/server/auth/session.py:67-69 | A token the registry does not hold yields `None` |
| Session.IncompleteEntryRejected | apps/server/auth/session.py:72-80 | An entry without a truthy `user_id` or `expires_at` yields `None` |
| Session.ExpiryInclusive | apps/server/auth/session.py:96-103 | With no `issued_at`, the token is accepted exactly when now is not after the expiry; now equal to the expiry is still valid |
| Session.IssuedAtWindow | apps/server/auth/session.py:105-127 | An `issued_at` after now rejects a token that has not expired; an unparseable one is ignored |
| Session.MalformedExpiryRejected | apps/server/auth/session.py:85-94 | An `expires_at` that does not parse yields `None` |
| Session.NaiveExpiryIsUtc | apps/server/auth/session.py:85-88 | A zone-less `expires_at` is read as UTC: its wall-clock reading is the expiry instant |
| Session.LoadIsMemoised | apps/server/auth/session.py:18-51 | Loading a second time, from any file, returns the same registry; both globals end as the first load left them (kept if already cached, otherwise read from the first file) |
| Session.NoSecretNoSignature | apps/server/auth/session.py:156-162 | Without a truthy secret the answer is `False`, whatever the signature |
| Session.SignatureAcceptedIffDigest | apps/server/auth/session.py:156-168 | With a string secret, a signature is accepted exactly when it equals the hex HMAC-SHA256 of the payload |
| SignedToken.Trunc | core/auth/session.py:11 | `int()` of a float truncates toward zero |
| SignedToken.GenerateToken | core/auth/session.py:10-15 | `rsplit(":", 1)` of the token gives back the payload `user:exp`, with `exp = int(now) + expire_seconds`, and that payload's signature; for a colon-free user id, `split(":")` of the payload gives the user id and an expiry that `int()` reads back |
| SignedToken.VerifyToken | core/auth/session.py:18-33 | For every token: a user id comes back exactly when the token splits at its last `:`, the payload splits into two pieces, the second reads as an integer, `now` is not past that expiry, and the signature is ASCII and equal to the expected one; the user id is then the first piece and holds no `:` |
| SignedToken.SignedSplits | core/auth/session.py:14-20 | `rsplit(":", 1)` of a signed payload gives back the payload and the signature |
| SignedToken.PayloadSplits | core/auth/session.py:12-21 | `split(":")` of the payload of a colon-free user id gives the user id and the rendered expiry |
| SignedToken.SignatureText | core/auth/session.py:14 | A base64url signature is ASCII without a colon |
| SignedToken.NoColonInInt | core/auth/session.py:12 | The rendered expiry holds no colon |
| SignedToken.TokenShape | core/auth/session.py:10-21 | A generated token splits back, by `rsplit` then `split`, into its user, expiry and signature |
| SignedToken.RoundTrip | core/auth/session.py:10-30 | A token generated for a colon-free user id verifies to that user id up to and including its expiry second |
| SignedToken.ExpiredRejected | core/auth/session.py:23-24 | A token whose expiry is strictly past yields `None`, before the signature is looked at |
| SignedToken.ColonUserNeverVerifies | core/auth/session.py:21 | A user id containing `:` never verifies: the payload splits into more than two parts |
| SignedToken.NoColonRejected | core/auth/session.py:20 | A token without any `:` yields `None` |
| MemoryCache.MetricCache.constructor | server/utils/memory_cache.py:15-20 | The cache starts empty |
| MemoryCache.MetricCache.Update | server/utils/memory_cache.py:22-32 | The URI's entry becomes exactly `{timestamp, value}` whatever it was; every other entry is unchanged and no URI disappears |
| MemoryCache.MetricCache.Snapshot | server/utils/memory_cache.py:34-42 | The snapshot equals the cache, and the cache is not changed |
| MemoryCache.MetricCache.GetMetric | server/utils/memory_cache.py:44-55 | The entry when the URI is present, `None` otherwise, and nothing is inserted |
| MemoryCache.MetricCache.Clear | server/utils/memory_cache.py:57-62 | The cache is empty afterwards |
| MemoryCache.SnapshotIsolated | server/utils/memory_cache.py:34-42 | An update made after a snapshot does not show in the snapshot |
| MemoryCache.LastWriteWins | server/utils/memory_cache.py:31-32 | Two updates of a URI, then a lookup, give the second update |
| LogPath.Padded | server/utils/log_writer.py:42 | A zero-padded field has exactly its width in digits |
| LogPath.PaddedValue | server/utils/log_writer.py:42 | The padded digits read back as the number |
| LogPath.DateStamp | server/utils/log_writer.py:42 | `strftime("%Y%m%d")` is eight digits |
| LogPath.DateStampInjective | server/utils/log_writer.py:42 | Two valid dates share a stamp exactly when they are equal |
| LogPath.LogFile | server/utils/log_writer.py:42-43 | The path is the directory, `/metrics-`, eight digits and `.jsonl` |
| LogPath.LogFileInjective | apps/server/metrics/datapoints.py:13-16 | Two valid dates share a log file exactly when they are equal |
| LogWriter.Line | server/utils/log_writer.py:63 | A line exists exactly for an entry without a `datetime`, and it ends in a newline |
| LogWriter.WriteEntry | server/utils/log_writer.py:62-63 | Writing one entry creates the file if needed and touches no other file |
| LogWriter.WriteAllAppends | server/utils/log_writer.py:59-66 | Draining a batch appends the lines of its entries to the file in queue order; entries that cannot be serialised are dropped |
| LogWriter.WriteAllFrame | server/utils/log_writer.py:59-66 | Draining creates at most today's file and leaves every other file as it was |
| LogWriter.DroppedEntryWritesNothing | server/utils/log_writer.py:61-66 | An entry holding a `datetime` adds nothing to the file and is not retried |
| LogWriter.LogWriter.constructor | server/utils/log_writer.py:18-33 | The queue starts empty with no outstanding work and no task |
| LogWriter.LogWriter.GetLogPath | server/utils/log_writer.py:35-43 | Today's path is `LogFile(log_dir, today)`, different from every other day's |
| LogWriter.LogWriter.Append | server/utils/log_writer.py:45-52 | The entry joins the tail of the queue; outstanding work grows by one; nothing else changes |
| LogWriter.LogWriter.WriteOne | server/utils/log_writer.py:59-68 | The head of the queue is removed and `task_done` runs whether or not the write succeeds; the file gets its line only when `open` succeeded |
| LogWriter.LogWriter.Drain | server/utils/log_writer.py:54-68 | Draining the queue leaves it empty with no outstanding work, and the file holds the queued entries' lines in order |
| LogWriter.LogWriter.Start | server/utils/log_writer.py:70-76 | After `start` there is exactly one consumer, and a second call creates none |
| LogWriter.StartIsIdempotent | server/utils/log_writer.py:75-76 | However many connections call `start`, there is one consumer |
| LogWriter.AppendThenDrain | server/utils/log_writer.py:52-63 | Two appended entries are written in the order they were appended |
| UriTree.NonEmptyConcat | server/fs/tree.py:23 | Dropping empty pieces commutes with concatenation |
| UriTree.SegmentsOfSplit | server/fs/tree.py:23 | Stripping the slashes first does not change the segments |
| UriTree.SegmentsConcat | server/fs/tree.py:23 | The segments of `a/b` are those of `a` followed by those of `b` |
| UriTree.SegmentsEmpty | server/fs/tree.py:29 | The empty URI has no segments |
| UriTree.LeadingSlashIgnored | server/fs/tree.py:23 | A leading slash does not change the segments |
| UriTree.TrailingSlashIgnored | server/fs/tree.py:23 | A trailing slash does not change the segments |
| UriTree.DoubledSlashIgnored | server/fs/tree.py:23 | A doubled slash counts as one, so `/a//b/` names `a/b` |
| UriTree.URINode.constructor | server/fs/tree.py:5-7 | A new node has its name and no children |
| UriTree.URINode.AddChild | server/fs/tree.py:9-12 | An existing child is returned and never replaced; otherwise a fresh empty child is added under the name |
| UriTree.URINode.GetChild | server/fs/tree.py:14-15 | The child under the name, or `None` when there is none |
| UriTree.URITree.constructor | server/fs/tree.py:19-20 | A fresh tree holds only the root path |
| UriTree.URITree.InsertUri | server/fs/tree.py:22-26 | After `insert_uri(u)` the tree holds what it held before plus every prefix of `u`'s segments |
| UriTree.URITree.InsertPath | server/fs/tree.py:24-26 | The insertion loop adds exactly the prefixes of the segments |
| UriTree.URITree.Exists | server/fs/tree.py:28-35 | `exists(u)` is true exactly when the tree holds `u`'s segments, and it changes nothing |
| UriTree.URITree.Walk | server/fs/tree.py:30-35 | The lookup loop finds a path exactly when the tree holds it |
| UriTree.FreshTreeExists | server/fs/tree.py:28-35 | On a fresh tree `exists` holds exactly for URIs without segments, such as `/` or `""` |
| UriTree.InsertedPrefixExists | server/fs/tree.py:22-35 | After inserting `a/b`, both `a/b` and `a` exist, and no earlier path is lost |
| UriTree.InsertIdempotent | server/fs/tree.py:9-12 | Inserting the same URI twice leaves the tree as the first insert left it |
| UriTree.Register | core/app/main.py:32-33 | Registering a URI makes it present, keeps every earlier path and adds only its prefixes |
| UriTree.KnownUriUnchanged | server/app/main.py:53-54 | A URI already present is left as is |
| UriTree.RegisterKeepsPrefixClosed | server/fs/tree.py:22-26 | A prefix-closed set of paths stays prefix-closed when a URI is registered |
| UriTree.RegisterUri | server/app/main.py:53-54 | `if not exists(uri): insert_uri(uri)` changes the tree's paths as `Register` says |
| MetricStorage.Storage.constructor | core/metrics/datapoints.py:8-10 | The store starts empty |
| MetricStorage.Storage.Insert | core/metrics/datapoints.py:12-13 | `(ts, value)` goes at the end of that URI's list; the other URIs keep theirs |
| MetricStorage.Storage.Get | core/metrics/datapoints.py:15-16 | The list in insertion order, or empty for an unknown URI, with no key created |
| MetricStorage.Storage.GetLatest | core/metrics/datapoints.py:18-21 | The most recently inserted pair, or `None`; an unknown URI gains an empty list |
| MetricStorage.InsertThenLatest | core/metrics/datapoints.py:12-21 | Right after an insert, the latest pair of that URI is the inserted one |
| MetricStorage.LatestOfUnknownCreatesKey | core/metrics/datapoints.py:18-21 | Asking an unknown URI for its latest pair returns `None` and adds that URI with an empty list |
| Sorting.SortBySorted | apps/server/metrics/datapoints.py:94 | The sort leaves the list ordered by its key |
| Sorting.SortByPermutes | apps/server/metrics/datapoints.py:94 | The sort is a permutation of its input |
| Sorting.SortByStable | apps/server/metrics/datapoints.py:94 | The sort is stable: elements with equal keys keep their input order |
| LogQuery.ParseLogEntry | apps/server/metrics/datapoints.py:29-45 | Invalid JSON gives `None`; an object with a string `ts` gains an aware `ts_datetime` (zone-less read as UTC); without a string `ts` it is returned unchanged |
| LogQuery.BadTimestampSkipped | apps/server/metrics/datapoints.py:34-45 | An unparseable `ts` makes the line count as absent |
| LogQuery.Entries | apps/server/metrics/datapoints.py:48-58 | Only truthy parses are kept, in file order |
| LogQuery.ReadEntries | apps/server/metrics/datapoints.py:53-58 | The reading loop returns exactly `Entries` of the file's lines |
| LogQuery.Matching | apps/server/metrics/datapoints.py:85-91 | The filter raises exactly when some entry is not a dictionary; otherwise every point comes from an entry with the URI, a time and a numeric value |
| LogQuery.MatchingStep | apps/server/metrics/datapoints.py:85-91 | One more entry adds its point exactly when it is selected |
| LogQuery.MatchingRaises | apps/server/metrics/datapoints.py:85-89 | A list or string entry makes `.get` raise |
| LogQuery.Get | apps/server/metrics/datapoints.py:61-96 | The method computes `Query`: the day's file, missing file giving `[]`, filtered and sorted by time |
| LogQuery.QueryIsSortedSelection | apps/server/metrics/datapoints.py:85-94 | The result is the selected points of the file, all of them and nothing else, oldest first, ties in file order |
| LogQuery.InvalidDateMeansToday | apps/server/metrics/datapoints.py:67-72 | A date `strptime` rejects reads today's file, exactly as no date at all |
| LogQuery.GetLatest | apps/server/metrics/datapoints.py:99-106 | The last point of `get`, `None` when there is none |
| LogQuery.LatestIsMaximal | apps/server/metrics/datapoints.py:99-106 | The latest point is one of the results and none of them is later |
| Handler.RawOfObjectLine | apps/server/main.py:57 | Stripping a line holding a JSON object and its newline gives back the object's text |
| Handler.Reply | apps/server/main.py:104-111 | Only an error or an acknowledgement writes a line; an error line is `ERROR: ` and its text |
| Handler.LogEntry | apps/server/main.py:94-99 | The log entry has exactly the keys `ts`, `uri`, `value`, `user_id`, holding the given values |
| Handler.AfterLoad | apps/server/auth/session.py:20-51 | A cached registry is kept; otherwise the file is read |
| Handler.AfterLoadIdempotent | apps/server/auth/session.py:20 | Unless the file holds `null`, loading twice is loading once and leaves a registry cached |
| Handler.AsWrittenPayloadFails | apps/server/main.py:80-82 | Once `ts_datetime` holds a `datetime`, the server's payload cannot be serialised |
| Handler.IntendedPayloadIsSigned | apps/server/main.py:63-82 | Dropping `ts_datetime` too gives the canonical form of the decoded object without its signature |
| Handler.Run | apps/server/main.py:43-113 | The loop gives at most one effect per line, and only the last one can close the connection |
| Handler.Runs | apps/server/main.py:43-113 | The run after each prefix of the lines, one per prefix |
| Handler.RunStopsAtClose | server/main.py:85-89 | Once a line has ended the connection, later lines are never read |
| Handler.RunEnds | apps/server/main.py:43-55 | A loop that has read every line, or stopped at a close, has produced the whole run |
| Handler.RunAdvance | apps/server/main.py:43-113 | One more line through a loop that has not stopped appends its answer |
| Handler.RunAnswersEveryLine | apps/server/main.py:106-113 | A loop whose step never raises answers every line, in order |
| AppsServer.Step | apps/server/main.py:53-111 | The step never closes the connection; it is silent exactly on a blank line; the log and cache change only on `ACK`, where exactly one entry is appended to the queue |
| AppsServer.Checked | apps/server/main.py:65-104 | After parsing, every outcome is an answer; nothing is queued or cached unless acknowledged; the registry is at most loaded |
| AppsServer.Signed | apps/server/main.py:79-104 | The signature check changes the stores only on `ACK`, which appends one entry |
| AppsServer.ParseErrorReported | apps/server/main.py:106-111 | A parse error is answered with its text, any other exception with "Internal server error", and nothing changes, the registry included |
| AppsServer.MissingCredentialsFirst | apps/server/main.py:65-71 | An empty token or signature gives "Missing token or signature" before the registry is consulted |
| AppsServer.InvalidTokenSkipsSignature | apps/server/main.py:73-77 | A refused token gives "Invalid or expired token" and the signature is never checked |
| AppsServer.AckNeedsTokenAndSignature | apps/server/main.py:61-104 | `ACK` implies a parsed line, credentials present, an accepted token, a serialisable payload, an accepted signature, and the stores updated with the entry and the cache value |
| AppsServer.CheckedAsWrittenNeverAcks | apps/server/main.py:79-86 | As written, no parsed message passes the signature check |
| AppsServer.AsWrittenNeverAcks | apps/server/main.py:80-82 | As written, no line is ever acknowledged |
| AppsServer.AsWrittenFailsAcceptedToken | apps/server/main.py:80-111 | As written, a well-formed message with an accepted token gets "Internal server error" whatever its signature, and nothing is queued or cached |
| AppsServer.AcceptedTokenMeansLoaded | apps/server/auth/session.py:58-69 | A registry that holds nothing accepts no token |
| AppsServer.SignedAccepts | apps/server/main.py:83-104 | A signature equal to the expected digest of the intended payload is accepted and the message stored |
| AppsServer.CheckedAcceptsSigned | apps/server/main.py:65-104 | A valid token plus that signature passes every check |
| AppsServer.IntendedAcksSignedLine | apps/server/main.py:61-104 | With the intended payload, a well-formed line signed under its token's secret is parsed to itself plus `ts_datetime`, acknowledged, queued and cached |
| AppsServer.StepperNeverCloses | apps/server/main.py:106-111 | Every exception is caught per line |
| AppsServer.AnswersEveryLine | apps/server/main.py:43-113 | Each line received gets its answer, in order |
| AppsServer.Server.constructor | apps/server/main.py:24-26 | The stores start empty with no registry loaded |
| AppsServer.Server.HandleLine | apps/server/main.py:53-111 | The new stores and the answer are those of `Step` |
| AppsServer.Server.HandleMessage | apps/server/main.py:62-86 | The new stores and the answer are those of `Checked` |
| AppsServer.Server.HandleSigned | apps/server/main.py:79-104 | The new stores and the answer are those of `Signed` |
| AppsServer.Server.Store | apps/server/main.py:90-101 | One log entry is queued, then the URI's cache entry is replaced |
| AppsServer.Server.Serve | apps/server/main.py:40-113 | `start` runs first; the connection's state and answers are the run of `Step` over the lines, one answer per line |
| AppsServer.Server.Next | apps/server/main.py:43-113 | One more line of the loop, never closing it |
| ServerMain.Step | server/main.py:37-83 | Blank lines are not skipped; the log and cache change only on `ACK`, where one entry is appended |
| ServerMain.Checked | server/main.py:44-78 | After parsing, nothing is queued or cached unless acknowledged |
| ServerMain.Signed | server/main.py:59-78 | The signature check changes the stores only on `ACK` |
| ServerMain.BlankLineAnswered | server/main.py:41-43 | An empty line reaches `parse_message` and gets its decoding error back |
| ServerMain.MissingCredentialsFirst | server/main.py:44-50 | An empty token or signature gives "Missing token or signature" first |
| ServerMain.InvalidTokenSkipsSignature | server/main.py:52-57 | A refused token is answered and the signature never checked |
| ServerMain.SignedAckQueuesTime | server/main.py:67-72 | The entry queued on `ACK` carries the `datetime` read again from `ts` |
| ServerMain.CheckedAckQueuesTime | server/main.py:67-72 | The same holds for a message that passes every check |
| ServerMain.AckedEntryIsNotJson | server/main.py:72 | The entry queued for an acknowledged line holds a `datetime`, so it is not serialisable |
| ServerMain.HoldsTimeNotJson | server/main.py:72 | A dictionary with a `datetime` inside is not JSON |
| ServerMain.AsWrittenClosesOnValidToken | server/main.py:60 | As written, a parsed message whose token is accepted makes `json.dumps` raise and closes the connection |
| ServerMain.CheckedAsWrittenNeverAcks | server/main.py:59-64 | As written, no parsed message passes the signature check |
| ServerMain.AsWrittenNeverAcks | server/main.py:60 | As written, no line is ever acknowledged |
| ServerMain.AcceptedTokenMeansLoaded | apps/server/auth/session.py:58-69 | A registry that holds nothing accepts no token |
| ServerMain.SignedAccepts | server/main.py:61-78 | A signature equal to the expected digest of the intended payload is accepted and the message stored |
| ServerMain.CheckedAcceptsSigned | server/main.py:44-78 | A valid token plus that signature passes every check |
| ServerMain.IntendedAcksSignedLine | server/main.py:41-78 | With the intended payload, a well-formed signed line is acknowledged, queued and cached |
| ServerMain.PopKeepsPayload | server/main.py:45 | Popping `signature` in place does not change the payload that is serialised |
| ServerMain.Server.constructor | server/main.py:24-25 | The stores start empty |
| ServerMain.Server.HandleLine | server/main.py:41-83 | The new stores and the answer are those of `Step` |
| ServerMain.Server.HandleSigned | server/main.py:59-78 | With `signature` popped, the new stores and the answer are those of `Signed` |
| ServerMain.Server.Store | server/main.py:67-75 | One log entry is queued, then the cache entry is replaced |
| ServerMain.Server.Serve | server/main.py:35-89 | The connection's state and answers are the run of `Step`, stopping at the first exception |
| ServerMain.Server.Next | server/main.py:36-83 | One more line of the loop |
| ServerApp.Checked | server/app/main.py:41-63 | The registry is loaded; only a valid token queues one entry; tree paths only grow |
| ServerApp.Step | server/app/main.py:37-68 | The queue changes only on `ACK`; the tree only gains paths |
| ServerApp.ParseErrorReported | server/app/main.py:65-68 | A parse error is answered and changes nothing |
| ServerApp.InvalidTokenSkipsLine | server/app/main.py:41-46 | A refused token is answered; the URI is not registered and nothing is queued |
| ServerApp.ValidTokenAcks | server/app/main.py:41-63 | No signature is checked: an accepted token is acknowledged whatever the signature, with the URI registered and the entry queued |
| ServerApp.Server.constructor | server/app/main.py:16-17 | The stores start empty and the tree holds only its root |
| ServerApp.Server.HandleLine | server/app/main.py:37-68 | The new state and the answer are those of `Step` |
| ServerApp.Server.HandleMessage | server/app/main.py:41-63 | The new state and the answer are those of `Checked` |
| ServerApp.Server.Store | server/app/main.py:48-61 | The URI is registered when new, then the log entry is queued |
| ServerApp.Server.Serve | server/app/main.py:32-71 | The connection's state and answers are the run of `Step` |
| ServerApp.Server.Next | server/app/main.py:32-68 | One more line of the loop |
| CoreApp.Step | core/app/main.py:20-44 | Nothing changes unless the line is acknowledged, and then tree paths and stored URIs only grow |
| CoreApp.AcceptableLineAcks | core/app/main.py:27-40 | Without authentication, an acceptable line with a string `uri` is acknowledged; its URI is in the tree and its point is last for that URI; no other URI's points change |
| CoreApp.AckIff | core/app/main.py:27-40 | A line is acknowledged exactly when the parser accepts it and its `uri` is a string |
| CoreApp.ParseErrorReported | core/app/main.py:41-42 | A parse error is answered with its text and changes nothing |
| CoreApp.NonStringUriCloses | core/app/main.py:32 | A `uri` that is not a string makes `exists` raise, ending the connection before anything is stored |
| CoreApp.Server.constructor | core/app/main.py:12-13 | The tree holds only its root and the store is empty |
| CoreApp.Server.HandleLine | core/app/main.py:21-44 | The new state and the answer are those of `Step` |
| CoreApp.Server.Store | core/app/main.py:32-37 | The URI is registered when new, then `(ts, value)` is appended to its points |
| CoreApp.Server.Serve | core/app/main.py:20-47 | The connection's state and answers are the run of `Step` |
| CoreApp.Server.Next | core/app/main.py:20-44 | One more line of the loop |
| TopProcesses.Sanitized | apps/collectors/top_processes.py:52-53 | The comprehension keeps the length, and every character is alphanumeric, `-`, `_` or `.` |
| TopProcesses.PidNameShape | apps/collectors/top_processes.py:55-56 | The fallback `pid_<pid>` is a valid name neither starting nor ending with `_` |
| TopProcesses.CleanNameShape | apps/collectors/top_processes.py:52-58 | A clean name is never empty, is at most 32 characters, has only kept characters, and neither starts nor ends with `_` |
| TopProcesses.CleanNameKeeps | apps/collectors/top_processes.py:52-58 | A name that is already clean is kept as is |
| TopProcesses.CleanNameIdempotent | apps/collectors/top_processes.py:52-58 | Cleaning twice is cleaning once, whatever PID the second call is given |
| TopProcesses.CleanNameFallsBack | apps/collectors/top_processes.py:54-56 | A name with nothing left after stripping `_` becomes `pid_<pid>` |
| TopProcesses.CleanNameTruncates | apps/collectors/top_processes.py:58 | A name longer than 32 keeps its first 30 characters and gains `..` |
| TopProcesses.Eligible | apps/collectors/top_processes.py:19-37 | Exactly the processes read whose `cpu_percent` is not `None` are gathered |
| TopProcesses.Gather | apps/collectors/top_processes.py:19-37 | The gathering loop returns `Eligible` of the listing |
| TopProcesses.BusiestFirst | apps/collectors/top_processes.py:39-44 | In the sorted list, earlier processes use at least as much CPU as later ones |
| TopProcesses.PrefixDescending | apps/collectors/top_processes.py:39-47 | The first `n` of the sorted list are in descending CPU order |
| TopProcesses.RestBelow | apps/collectors/top_processes.py:39-47 | Nothing after the first `n` uses more CPU than any of them |
| TopProcesses.TopFive | apps/collectors/top_processes.py:39-47 | At most five processes, the busiest, in descending CPU order, taken from the input; every process left out uses no more CPU than any chosen |
| TopProcesses.TopKeepsTies | apps/collectors/top_processes.py:39-44 | Processes with equal CPU stay in listing order |
| TopProcesses.ProcessMetrics | apps/collectors/top_processes.py:60-76 | One process yields at most two metrics |
| TopProcesses.MetricsOf | apps/collectors/top_processes.py:47-77 | The metrics exist exactly when every chosen process has a name, and there are at most two per process |
| TopProcesses.MetricsOfHas | apps/collectors/top_processes.py:47-77 | Every metric of a chosen process is among the metrics returned |
| TopProcesses.Emit | apps/collectors/top_processes.py:47-77 | The emitting loop returns `MetricsOf` of the chosen processes |
| TopProcesses.MissingNameStays | apps/collectors/top_processes.py:47-54 | Once a chosen process has no name, the whole result is lost |
| TopProcesses.Collect | apps/collectors/top_processes.py:11-80 | `collect` returns `Collected` of the listing: gather, sort, take five, emit, `[]` on any exception |
| TopProcesses.CollectedAtMostTen | apps/collectors/top_processes.py:47-77 | At most ten metrics are returned |
| TopProcesses.TopHaveCpu | apps/collectors/top_processes.py:27-30 | Every chosen process has a `cpu_percent` |
| TopProcesses.CollectedCoversTop | apps/collectors/top_processes.py:47-80 | When every chosen process has a name, each yields its `top_cpu` metric; otherwise the result is `[]` |
| Agent.SignMessage | apps/agents/main.py:58-59 | The signature is the expected hex HMAC-SHA256, 64 characters long |
| Agent.FullUri | apps/agents/main.py:198 | The URI is `/agent/<user_id>/<suffix>`, never under `/sensitive/` |
| Agent.MessageToSign | apps/agents/main.py:199-205 | The signed message has exactly the keys type, uri, ts, value, token, with the metric's values |
| Agent.PayloadDefined | apps/agents/main.py:207 | The signed message can be serialised |
| Agent.Payload | apps/agents/main.py:207 | The payload is the canonical form (sorted keys, compact separators) of the signed message |
| Agent.Signature | apps/agents/main.py:208 | The signature is the expected digest of that payload under the secret |
| Agent.MessageToSend | apps/agents/main.py:210-211 | Every field of the message sent is JSON |
| Agent.SendExtendsSigned | apps/agents/main.py:210-211 | The message sent is the message signed plus a `signature` key holding the signature |
| Agent.ObjectDumps | apps/agents/main.py:213 | The message sent can be serialised |
| Agent.WireText | apps/agents/main.py:213 | The text written is `json.dumps` of the message sent, a `{…}` object |
| Agent.LineReadsBack | apps/agents/main.py:213 | The line written, stripped of its newline, is the serialised message |
| Agent.SendIsSigned | apps/agents/main.py:199-213 | The message sent is acceptable to `parse_message`, carries the token, and its signature is the expected digest of the canonical payload of everything but `signature` |
| Agent.IntendedAcksAgentLine | apps/agents/main.py:199-213 | Under the intended payload rule, the line the agent writes is acknowledged and stored by the apps server |
| Agent.AsWrittenRejectsAgentLine | apps/agents/main.py:199-213 | As written, the apps server answers the agent's line with "Internal server error" |
| Agent.SendingFrom | apps/agents/main.py:183-232 | The metrics sent are at most those given, and all are numbers |
| Agent.Lines | apps/agents/main.py:213 | One line per metric, each the metric's wire line |
| Agent.LinesConcat | apps/agents/main.py:183-213 | The lines of two batches are the lines of each, in order |
| Agent.Render | apps/agents/main.py:198-213 | One metric becomes its wire line |
| Agent.SendBatch | apps/agents/main.py:183-232 | The loop writes exactly the lines of `Sending` |
| Agent.Numeric | apps/agents/main.py:189-196 | Only numeric metrics are kept, in order |
| Agent.SendsEveryNumber | apps/agents/main.py:189-196 | With no shutdown and no connection loss, every numeric metric is sent, in order, and nothing else |
| Agent.SendsNumericPrefix | apps/agents/main.py:183-232 | What is sent is always the numeric metrics of some prefix of the batch |
| Agent.StopsAtShutdown | apps/agents/main.py:184-187 | Once shutdown is set, no later metric is sent |
| Agent.StopsAtConnectionLoss | apps/agents/main.py:224-230 | A connection error aborts the rest of the batch |

## Left out

- **I/O and the network.** TLS setup, sockets, `readline` and `drain` are left out.
  - A connection is the sequence of lines received before end of input.
  - A read error (`ConnectionResetError`, `IncompleteReadError`) is modelled as end of input.
  - The agent's connection setup and reconnection (apps/agents/main.py:75-165) are not part of this model.
  - Prints and logging are not modelled.
- **Concurrency.** The `asyncio` lock of `MetricCache`, the concurrent connections and the background write task are left out.
  - The write loop is modelled as explicit `WriteOne`/`Drain` calls on the same object.
  - Interleavings between connections are not modelled.
- **Library internals.** `json.loads`, `fromisoformat`, `isoformat`, `strptime`, HMAC-SHA256, base64url and float rendering are uninterpreted.
  - `hmac.compare_digest` is plain string equality on ASCII strings.
- **Dictionary order.** Python dictionaries keep insertion order; maps do not. `Json.Dumps` therefore renders every object with sorted keys.
  - This is exact for the signed payloads, which use `sort_keys=True`.
  - The agent's wire line (apps/agents/main.py:213) and the log lines (server/utils/log_writer.py:63) are written in insertion order by the source, and the model does not capture that key order.
- **Agent.SendBatch:** the server's answer is not checked, because the source only prints it (apps/agents/main.py:216-222).
  - An exception other than `ConnectionError` while writing a metric is modelled as that metric's line already written. The other metrics go on.
- **The agent's collection loop** (apps/agents/main.py:167-181) and the other collectors are not part of this model. They are wrappers over psutil and subprocesses.
- **psutil.** The process listing is a parameter: per PID, the attributes `as_dict` returned, or a failure.
  - A process whose `name` is `None` is modelled as raising while its name is sanitised, so `collect` returns `[]`.
  - `float()` of the percentages is the identity on `real`.
- **Agent.IntendedAcksAgentLine:** requires, as a hypothesis, that the server's `json.loads` reads the agent's `json.dumps` back. The two are separate uninterpreted functions.
- **core/app/main.py** imports `core.utils.message` and `core.fs.tree`, which are not shown in the repository.
  - They are modelled with server/core/utils/message.py and server/fs/tree.py, which match those module names.
  - apps/server/main.py:10, server/main.py:9 and server/app/main.py:6 import `server.auth.session`, which is not in the repository. apps/server/auth/session.py stands in for it, so its registry tokens are the ones those three servers check.
- **UriTree:** the tree's contents are specified by a ghost set of the paths it holds, tied to the nodes by the class invariant. `URINode.name` is kept but plays no part in lookups, as in the source.
- **LogQuery:** the query reads a file given as its lines. `Path.exists` is membership in the map of files.
- **The `ts_datetime` that `_parse_log_entry` attaches:** the model keeps it as an aware `datetime`. Sorting raises `TypeError` on a comparison of naive and aware times; the model checks only that every key is aware (`LogQuery.Comparable`).
  - A line whose JSON already holds a `ts_datetime` key but no string `ts` keeps that raw value as its sort key. Python sorts such keys when they are mutually comparable (all strings, say); the model raises as soon as two points exist and one key is not an aware `datetime`.
- **UTF-8 decoding of a received line.** `data.decode()` raising `UnicodeDecodeError` closes the connection (apps/server/main.py:57, through the outer `except`; server/main.py:41). Lines are modelled as already-decoded strings, so this path is not modelled.
- **MetricStorage.Storage.Get:** returns the stored list as a value. The source returns the live list (core/metrics/datapoints.py:15-16), so a caller's later changes to it would show in the store; that aliasing is not modelled.
- **SignedToken.VerifyToken:** reads the expiry with ASCII digits only (`Strings.ParseInt`). Python's `int()` at core/auth/session.py:22 also reads other Unicode decimal digits, so a token such as `u:１７００００００００:<signature>` verifies in Python but not in the model. The model's if-and-only-if holds for expiries written in ASCII.
- **LogPath.DateStamp:** always pads the year to four digits. glibc's `strftime("%Y")` does not pad years below 1000, so for such a date (reachable through `get`'s `date_str`, for example `"00050101"`) the source's file name has a shorter stamp than the model's. `LogPath.DateStampInjective` holds for the model's stamp.
- **`float()` in the log query:** `float(entry["value"])` raises `OverflowError` on an integer too large for a double (apps/server/metrics/datapoints.py:91). Integers and floats are unbounded `int` and `real`, so the model converts every number.

## Findings

| source | as written | input that shows it | evidently intended | confidence | as-written member | corrected member |
|---|---|---|---|---|---|---|
| apps/server/main.py:80-82 | The signed payload is `json.dumps` of the parsed message minus `signature`. It still holds `ts_datetime`, a `datetime`, so `json.dumps` raises `TypeError` and the line gets "ERROR: Internal server error" | Any well-formed line whose token is valid, such as the line the agent writes for a numeric metric | Serialise the decoded message without `signature` (and without `ts_datetime`), the bytes the agent signed | high, not executed | AppsServer.AsWrittenNeverAcks | AppsServer.IntendedAcksSignedLine |
| server/main.py:60 | The same payload, built from `parse_message`'s result with `ts_datetime` inside. Here the `TypeError` is not caught per line, so the connection closes | Any well-formed line whose token is valid | As above | high, not executed | ServerMain.AsWrittenNeverAcks | ServerMain.IntendedAcksSignedLine |

Each handler class takes the payload rule as a constructor argument:

- `AsWritten` is the code as it stands.
- `Intended` is the corrected payload.

The agent-side consequences are `Agent.AsWrittenRejectsAgentLine` and `Agent.IntendedAcksAgentLine`.
