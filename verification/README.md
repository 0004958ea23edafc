# Verification model of istio-forward-proxy

A Dafny 4.11 model of the forward proxy's logic, with proofs. `dafny verify dfyconfig.toml`
checks the whole project.

The proxy accepts plain HTTP requests in absolute form and CONNECT requests, decides on each by an
allowlist built from ServiceEntry resources, and passes the allowed ones to an upstream proxy over a
connection whose certificates are reloaded while it serves. The model covers:

| file | what it models |
|---|---|
| `Text.dfy` | byte strings, letter case, decimal numerals, 32-bit ports |
| `HostPort.dfy` | splitting host:port, default ports |
| `ServiceEntry.dfy` | the watcher: the plain decision over the entry list, the index, `Rebuild` and `AllowHost` as methods of a class |
| `PlainDecision.dfy` | the decision read off the entries themselves: what a line applies to, which entry governs |
| `OrderIndependence.dfy` | when the order of the listed entries matters |
| `WatcherProtocol.dfy` | the watcher as interleaved steps: cache changes, events, one serial handler, readers under the lock |
| `Certs.dfy`, `CertProtocol.dfy` | the certificate manager as a class, and hot reload as interleaved steps |
| `HeaderNames.dfy` | extra headers from the environment |
| `HeaderRewrite.dfy` | hop-by-hop filtering and header overrides on the request, the header copy on the response |
| `Spelling.dfy` | splitting and deciding together |
| `Tunnel.dfy`, `IdleTimeout.dfy` | the CONNECT tunnel as a timed step system with its byte streams, and the deadline-pushing wrapper |
| `TunnelTimers.dfy` | when operations of the tunnel time out, in every run |
| `TunnelEnds.dfy` | how long the tunnel stays open, and that it returns |
| `TunnelSharing.dfy` | when the two idle timers act as one |
| `HeaderText.dfy` | messages as lines of text, and readers of requests and status lines that know nothing of how the proxy writes them |
| `UpstreamReader.dfy` | the buffered reader of upstream's answer to CONNECT, and what it keeps from the tunnel |
| `Ledger.dfy`, `Exchange.dfy` | effects of one request and the rules they keep; both handlers with every early return |
| `ConnectLaws.dfy` | what upstream and the client can read off a CONNECT, and what its counts and audit events tell about the peers |
| `Fleet.dfy` | any number of handlers at once and the shared gauge |

Concurrent parts are state machines: a state, a datatype of steps, `Enabled` and `Apply`, and
theorems over every state of every run (a sequence of states linked by steps). Parts that work on
one object are classes whose methods are proved against specification functions.

What the peers, the network, the API server and the file system do enters as parameters or as
steps that may happen at any time: which Write is cut short where, what a Read returns, which files
change when, how the stream is cut into socket reads. X.509 parsing is a record of predicates
(`Certs.Pki`), header parsing a function (`UpstreamReaders.Http`).

Four results differ from what the comments in the sources say or suggest, and are proved exactly:

- **One shared idle timer** (`handler.go:415-420`). Every operation times out exactly one timeout
  after the last call on its connection (`TunnelTimers.DeadlineIsLastCall`), so it does so less than a
  timeout after the last chunk if and only if that call was made before the chunk was read
  (`TunnelTimers.EarlyTimeoutsExactly`). In every run whatsoever nothing times out less than a timeout
  after the last chunk but one (`TunnelTimers.TimeoutsAreGenuine`).
  - A Read, as long as setting its connection's deadline has not failed, times out too early only if
    the last chunk arrives in the very same instant (`TunnelSharing.LateChunkLosesTheRace`); after such
    a failure also later (`TunnelSharing.BrokenReadTimesOutEarly`).
  - A Write can do so whenever it is delayed (`TunnelSharing.OneDelayedWriteBreaksSharing`): at a
    moment at which time passes the tunnel can be cut short that way if and only if the connection the
    Write goes to has not been called since the last chunk (`TunnelSharing.SharesUnlessUnattended`).
  - Hence, failures to set a deadline apart, the timer is shared in all runs in which no time passes on
    such a Write (`TunnelTimers.AttendedRunsSurvive`), and is one timeout after the last chunk to the
    instant if peers drain without delay (`TunnelSharing.OneSharedIdleTimer`).
  - With delays the tunnel can stay open three timeouts after the last chunk, but not longer
    (`TunnelEnds.ReturnsWithinThreeTimeouts`, `TunnelSharing.ThreeTimeoutsAreReached`).
- **The CONNECT handover** (`handler.go:382-421`). What `upstreamReader` has taken off the socket
  beyond the response header does not reach the client. Nothing is lost if and only if no socket read
  of the reader brings a byte from past the header (`UpstreamReaders.LossExactly`,
  `Exchanges.DownloadHandover`); upstream can rely on that if and only if it sends nothing after the
  header before the tunnel is up (`UpstreamReaders.EveryCutIsSafe`); and a greeting that arrives with
  the header is lost (`Exchanges.GreetingIsLost`). The reported byte count leaves out client bytes
  sent ahead (`Exchanges.UploadHandover`).
- **Reload on every file change** (`manager.go:89-91`). With no relevant event on its way and no
  reload in progress, files that load are served if and only if a reload has completed since the last
  relevant event was handled, or they were served already at that moment; and none has only if some
  file was there but could not be read at a moment since (`CertProtocol.EventsConverge`). Such a file
  stays unloaded when it becomes readable, because the loop ignores the event of a chmod
  (`CertProtocol.ChmodIsMissed`); a chmod between reloads does no harm
  (`CertProtocol.LaterChmodIsHarmless`). A change before `watcher.Add` sends no event at all
  (`CertProtocol.ChangeBeforeAddIsMissed`).
- **The count of uploaded body bytes** (`handler.go:143-146`). It is loaded when the round trip
  returns, while the transport may still read the body; it is complete if and only if nothing is read
  afterwards (`Exchanges.CountIsComplete`).

Assumptions: a Read on a connection returns at least one byte or an error; internal steps of the
tunnel take no time compared with its timeout; one handler goroutine serves the informer's events and
the cache changes before its event is queued; fsnotify loses no event; host:port text follows the
grammar of package net and header keys the canonicalisation of net/http.

## Model

| member | source | states |
|---|---|---|
| HostPort.SplitIsTheGrammar | internal/proxy/handler.go:613-617 | splitting accepts exactly the texts `host:port` and `[host]:port` of the grammar and cuts them there |
| HostPort.HostPortRoundTrip | internal/proxy/handler.go:613-623 | a joined host and decimal port below 2^32 come back exactly if and only if the host holds no bracket |
| HostPort.BadPortFallsBack | internal/proxy/handler.go:618-621 | a port that is empty, not decimal or 2^32 and above gives the intact host with the default port |
| HostPort.MalformedIsWhole | internal/proxy/handler.go:613-617 | text the grammar does not spell in any way is the host as a whole, on the default port |
| HostPort.SchemePorts | internal/proxy/handler.go:625-630 | http goes to 80, https to 443, every other scheme to 80 |
| ServiceEntries.LastNaming | internal/serviceentry/watcher.go:133-138 | the last line naming a host, which is the one that governs it |
| ServiceEntries.FirstSpanning | internal/serviceentry/watcher.go:140-147 | the first wildcard line whose suffix the host ends with |
| ServiceEntries.BuildIndexes | internal/serviceentry/watcher.go:194-221 | the built map and wildcard list are the one index that holds each named host's last line and the wildcards in list order |
| ServiceEntries.ScanFindsFirstSpanning | internal/serviceentry/watcher.go:140-147 | scanning the wildcard list finds the first spanning line of the raw list |
| ServiceEntries.IndexDecides | internal/serviceentry/watcher.go:127-150 | querying the index equals the plain decision over the raw entry list, entry included |
| ServiceEntries.Watcher.Rebuild | internal/serviceentry/watcher.go:186-226 | after a successful List the fields index exactly that list; after a failed one nothing has changed |
| ServiceEntries.Watcher.AllowHost | internal/serviceentry/watcher.go:127-150 | the answer is the plain decision over the list the index was built from |
| ServiceEntries.PortAllowed | internal/serviceentry/watcher.go:152-162 | a port is allowed if and only if it is listed or none is |
| PlainDecisions.WildcardApplies | internal/serviceentry/watcher.go:140-147 | a wildcard line applies exactly to the hosts that end in its domain after a dot |
| PlainDecisions.PlainApplies | internal/serviceentry/watcher.go:133-138 | any other line applies exactly to the host it names, up to letter case and one dot at the end |
| PlainDecisions.LastExactDecides | internal/serviceentry/watcher.go:133-138 | the last exact line for a host decides whatever wildcards there are, by the ports of its entry, which the answer names |
| PlainDecisions.FirstWildcardDecides | internal/serviceentry/watcher.go:140-147 | without one the first wildcard that applies does |
| PlainDecisions.OtherwiseDenied | internal/serviceentry/watcher.go:149 | without any line that applies the answer is no and names no entry |
| ServiceEntries.AllowedIsListed | internal/serviceentry/watcher.go:119-150 | an allow names an entry whose host line applies to the host and whose ports permit the port |
| ServiceEntries.UnlistedIsDenied | internal/serviceentry/watcher.go:149 | a host no line applies to is denied |
| ServiceEntries.EntryIsLocal | internal/serviceentry/watcher.go:127-150 | inserting or deleting an entry anywhere leaves the answer for every host it does not apply to |
| OrderIndependence.OrderFreeExactlyWhenConsistent | internal/serviceentry/watcher.go:188-221 | verdicts are the same for every order of the entry list if and only if lines competing for a host permit the same ports |
| OrderIndependence.ConsistentIsOrderFree | internal/serviceentry/watcher.go:133-147 | competing lines with the same ports: any permutation gives the same verdicts |
| OrderIndependence.DisagreementShows | internal/serviceentry/watcher.go:219 | competing lines with different ports: two orders of the list answer some host and port differently |
| WatcherProtocol.StepHolds | internal/serviceentry/watcher.go:127-226 | every step of the handler, the informer and the readers keeps the invariant |
| WatcherProtocol.EveryAnswerIsOneSnapshot | internal/serviceentry/watcher.go:130-147 | readers see hosts and wildcards of one single snapshot, every answer is the decision over one snapshot, and answers never go back to an earlier one |
| WatcherProtocol.VersionsOnlyGrow | internal/serviceentry/watcher.go:223-226 | published snapshot versions never go backwards |
| WatcherProtocol.SettledMeansCurrent | internal/serviceentry/handlers.go:8-20 | with no event on its way, no rebuild under way and the last List successful, the index is that of the current cache |
| WatcherProtocol.SyncedExactly | internal/serviceentry/watcher.go:99-110 | once the flag is set the initial list is in the cache at some version; the index has got to that version if and only if a rebuild that listed it or a later one has been published, before which every answer is an older cache's and after which none is; a settled watcher has |
| WatcherProtocol.SyncedBeforeBuilt | internal/serviceentry/watcher.go:99-110 | the flag can be set before that, and a request the cache allows be denied |
| Certs.Manager.Reload | internal/certs/manager.go:49-87 | stores exactly the configurations that pass every check, keeps the current one otherwise, and names the first failed check |
| Certs.Manager.Watch | internal/certs/manager.go:107-129 | afterwards the configuration is that of the last relevant event whose reload succeeded, or the one from before |
| Certs.NewManager | internal/certs/manager.go:34-40 | a manager exists if and only if the first load passed every check, and then serves that load |
| Certs.RelevantExactly | internal/certs/manager.go:115-117 | the loop acts on an event exactly if it holds an operation other than a change of mode |
| CertProtocol.AlwaysOneWholeConfig | internal/certs/manager.go:42-46 | once the manager exists every state offers the complete result of one reload, its parts read in order after it began |
| CertProtocol.UnchangedWithoutStore | internal/certs/manager.go:49-80 | over any stretch of a run in which no reload completes the configuration stays the same, and a reload that completes puts in what it built |
| CertProtocol.StepQuiet | internal/certs/manager.go:107-122 | a state with nothing relevant on its way comes from such a state with the same contents or from beginning a reload |
| CertProtocol.ConvergesExactly | internal/certs/manager.go:89-122 | with nothing relevant on its way, nothing changed unwatched and no reload in progress, files that load are served if and only if the last reload stored or they were served before it; it fails only for a present file that could not be read |
| CertProtocol.QuietMeansCurrent | internal/certs/manager.go:89-122 | files that have been readable since the last reload began are then served |
| CertProtocol.EventsConverge | internal/certs/manager.go:107-122 | once a relevant event has been handled, and with none on its way and no reload in progress, files that load are served if and only if a reload has completed since the last event handled or they were served at that moment; none has only if a present file could not be read at a moment since |
| CertProtocol.WatchedChangesAreSeen | internal/certs/manager.go:115-122 | while watching no change of contents goes without a relevant event |
| CertProtocol.ChangeBeforeAddIsMissed | internal/certs/manager.go:92-103 | a change before watcher.Add stays unloaded until a later event |
| CertProtocol.ChmodIsMissed | internal/certs/manager.go:115-117 | files made readable after their event was handled stay unloaded |
| CertProtocol.LaterChmodIsHarmless | internal/certs/manager.go:115-117 | files made unreadable and readable again after they were loaded stay served |
| HeaderNames.HeaderNameFromEnv | cmd/main.go:252-276 | the name has '-' for '_' and capitals exactly at the start and after each '_' |
| HeaderNames.NameRoundTrip | cmd/main.go:252-276 | decoding the chart's encoding gives the canonical spelling, equal up to case, which encodes to the same variable |
| HeaderNames.CanonicalIsFold | cmd/main.go:252-276 | two names have one canonical spelling if and only if they differ in case only |
| HeaderNames.LastLineWins | cmd/main.go:235-247 | each header has the value of the last environment line that sets it, and no other header is set |
| HeaderNames.ParseExtraHeaders | cmd/main.go:235-247 | the two loops compute exactly the headers the environment sets |
| HeaderNames.ChartLineSets | deploy/helm/istio-forward-proxy/templates/deployment.yaml:69-71 | a rendered line sets the canonical name to everything after the first '=' |
| HeaderNames.ExampleSets | cmd/main.go:234-251 | EXTRA_HEADER_X_CORP_ID=a=b sets X-Corp-Id to a=b |
| HeaderNames.ChartRoundTrip | deploy/helm/istio-forward-proxy/templates/deployment.yaml:69-71 | whatever the order of the environment, the proxy ends up with exactly the chart's headers under canonical names |
| HeaderRewrite.StripHopByHop | internal/proxy/handler.go:209-213 | for any iteration order and any keys the deletion loop removes exactly the canonical spellings of the dropped names |
| HeaderRewrite.NoHopByHopSurvives | internal/proxy/handler.go:209-213 | of a request with canonical keys no hop-by-hop name survives, nor the client's Proxy-Authorization, and everything else does |
| HeaderRewrite.StrippedExactly | internal/proxy/handler.go:604-611 | for keys of any spelling, no dropped name survives if and only if those of the client's keys are canonical |
| HeaderRewrite.DroppedIsToken | internal/proxy/handler.go:210-211 | deleting a dropped name deletes its canonical spelling |
| HeaderRewrite.BuildUpstreamHeaders | internal/proxy/handler.go:203-219 | the result is the client's headers stripped, overridden by the proxy's authorization, then by the extra headers |
| HeaderRewrite.UpstreamGets | internal/proxy/handler.go:203-219 | under a key no extra header sets upstream gets the proxy's own credentials if it is Proxy-Authorization, nothing if it is another hop-by-hop name, and else the client's values |
| HeaderRewrite.HopKeysStop | internal/proxy/handler.go:604-611 | none of the eight hop-by-hop headers, by name, goes to upstream unless configured, or back to the client |
| HeaderRewrite.RelayedMerges | internal/proxy/handler.go:157-164 | under every key the client gets the values of all its spellings in the order visited |
| HeaderRewrite.RewrittenOnce | internal/proxy/handler.go:203-219 | the rewritten headers are determined by the client's headers and the configuration |
| HeaderRewrite.RewriteTwice | internal/proxy/handler.go:203-219 | rewriting rewritten headers changes nothing |
| HeaderRewrite.OrderMattersExactly | internal/proxy/handler.go:217-219 | the order of the extra headers does not matter if and only if no two set one key to different values |
| HeaderRewrite.ClashExactly | cmd/main.go:235-247 | the configured headers set no key to two values if and only if the winning lines of the environment agree wherever they set one key |
| HeaderRewrite.SameKeyExactly | cmd/main.go:252-276 | two variables set one key if and only if they are equal up to letter case and '_' for '-' |
| HeaderRewrite.TwoSpellingsClash | cmd/main.go:235-247 | two such variables with different names and values make the order of the extra headers matter |
| HeaderRewrite.ChartHeadersDoNotClash | deploy/helm/istio-forward-proxy/templates/deployment.yaml:69-71 | headers rendered by the chart never clash |
| HeaderRewrite.CopyResponseHeaders | internal/proxy/handler.go:157-164 | the two loops copy the response headers as the specification does for that iteration order |
| HeaderRewrite.NoHopByHopRelayed | internal/proxy/handler.go:157-164 | no hop-by-hop header of the response reaches the client, whatever its spelling |
| HeaderRewrite.RelayedExactly | internal/proxy/handler.go:157-164 | for canonical keys the client gets exactly the other headers with all their values in order, whatever the iteration order |
| Spelling.SpellingDoesNotMatter | internal/proxy/handler.go:613-623 | letter case, one trailing dot and an explicit default port make no difference to the decision |
| Spelling.SchemePortMayBeOmitted | internal/proxy/handler.go:117-119 | the scheme's default port may be written out or left out |
| Spelling.SchemeDecides | internal/proxy/handler.go:117-119 | a target without a port is decided as on 443 for https and as on 80 for every other scheme |
| IdleTimeout.IdleTimeoutConn.Perform | internal/proxy/handler.go:584-596 | a Read or Write moves the deadline exactly as its tunnel step does, or fails without making the call |
| IdleTimeout.Wrap | internal/proxy/handler.go:549-554 | a connection is wrapped if and only if the timeout is positive |
| Tunnel.StreamIntegrity | internal/proxy/handler.go:513-537 | accepted bytes are a prefix of those read, at most one buffer behind, final counts are exact, and a half-close is forwarded exactly to bare connections |
| TunnelTimers.DeadlineIsLastCall | internal/proxy/handler.go:584-596 | in every run a deadline is exactly one timeout after the last call on its connection, no pending operation outlives it, and operations time out at that very moment only |
| TunnelTimers.EarlyTimeoutsExactly | internal/proxy/handler.go:415-421 | whatever times out, on any connection, does so less than a timeout after the last chunk if and only if its connection has not been called since that chunk |
| TunnelTimers.TimeoutsAreGenuine | internal/proxy/handler.go:571-578 | in every run nothing times out less than a timeout after the last chunk but one; a Read on an unbroken connection does so after the last chunk if and only if that chunk has just arrived and is about to be passed on; a Write never does so after its own chunk |
| TunnelTimers.EarlyWriteTimeouts | internal/proxy/handler.go:415-420 | a Write times out less than a timeout after the last chunk if and only if its connection has not been called since that chunk, which the other loop then has read without reading again |
| TunnelTimers.RelayPushesBoth | internal/proxy/handler.go:415-420 | a relayed chunk puts the destination's deadline a full timeout past its reading, and the source's if and only if the source has been called since, as when its loop reads again |
| TunnelTimers.AttendedRunsSurvive | internal/proxy/handler.go:415-421 | if no time passes on a Write whose connection has not been called since the last chunk, nothing on an unbroken connection times out less than a timeout after the last chunk, unless that chunk came in the same instant and a full timeout after the one before |
| TunnelEnds.ReturnsWithinThreeTimeouts | internal/proxy/handler.go:571-578 | whatever the peers do the tunnel is not open longer than three timeouts after the last chunk |
| TunnelEnds.NeverStuck | internal/proxy/handler.go:513-537 | in an open tunnel time can pass or the program itself can move |
| TunnelEnds.SilenceIsFinite | internal/proxy/handler.go:571-578 | in a wrapped tunnel the number of steps that follow without a chunk is bounded, from every reachable state |
| TunnelEnds.SilentTunnelReturns | internal/proxy/handler.go:513-537 | from every reachable state a wrapped tunnel gets to its return without another chunk, its peers draining at once or not at all |
| TunnelSharing.OneSharedIdleTimer | internal/proxy/handler.go:415-421 | with peers that drain at once every pending deadline is the last chunk plus the timeout whenever time passes (on a broken connection at least the last chunk but one plus the timeout), no Write times out, and the tunnel is open no longer than that |
| TunnelSharing.PromptRunsSurvive | internal/proxy/handler.go:415-421 | with peers that drain at once nothing on an unbroken connection times out while successive chunks are less than a timeout apart |
| TunnelSharing.ReturnsWithinOneTimeout | internal/proxy/handler.go:513-537 | such a tunnel, if no more chunks come, returns at most one timeout after the last chunk |
| TunnelSharing.SharesUnlessUnattended | internal/proxy/handler.go:415-420 | while time passes a delayed Write can be cut short of a timeout after the last chunk, with no more chunks coming, if and only if its connection has not been called since that chunk |
| TunnelSharing.OneDelayedWriteBreaksSharing | internal/proxy/handler.go:415-420 | one delayed Write times out less than a timeout after a final chunk that the other direction delivered without delay |
| TunnelSharing.LateChunkLosesTheRace | internal/proxy/handler.go:571-578 | a Read can time out in the instant in which a chunk arrives in the other direction |
| TunnelSharing.BrokenReadTimesOutEarly | internal/proxy/handler.go:584-589 | after a failed SetDeadline a Read on that connection can time out later than the last chunk and less than a timeout after it |
| TunnelSharing.ThreeTimeoutsAreReached | internal/proxy/handler.go:513-537 | the bound of three timeouts is met |
| Ledgers.SoundThroughout | internal/proxy/handler.go:133-134 | a log that keeps the rules keeps them at every moment, with a gauge contribution of 0 or 1 |
| Ledgers.ContactNeedsAnAnswer | internal/proxy/handler.go:117-141 | every dial, round trip and byte to upstream comes after AllowHost said yes, a round trip after a yes for the pair split from its own target |
| Ledgers.OneAnswer | internal/proxy/handler.go:328-334 | AllowHost is asked at most once per request |
| Ledgers.OpenedIsClosed | internal/proxy/handler.go:339-357 | every connection opened for a request is closed by the time it is served |
| Exchanges.Exchange.DialUpstream | internal/proxy/handler.go:448-477 | succeeds exactly if dial and TLS part do, and leaves no connection open when it fails |
| Exchanges.Exchange.WritePreamble | internal/proxy/handler.go:361-380 | upstream has accepted the whole preamble, or exactly as much of it as its connection took |
| Exchanges.Exchange.FlushBuffered | internal/proxy/handler.go:406-413 | client bytes read ahead follow the preamble, each once |
| Exchanges.Exchange.HandleConnect | internal/proxy/handler.go:325-440 | the way out follows from the plain decision and the peers' behaviour, and its bytes, responses, audit events, counts, closed connections and gauge are exactly those listed for it |
| Exchanges.Exchange.HandleForward | internal/proxy/handler.go:107-183 | the same for the forward path, with the response headers the client gets |
| Exchanges.Exchange.SendBody | internal/proxy/handler.go:142-147 | the count reported is the total of what was read off the body before it was loaded |
| Exchanges.CountIsComplete | internal/proxy/handler.go:143-147 | that is the whole of what is read if and only if nothing is read afterwards |
| Exchanges.ForwardOutcomes | internal/proxy/handler.go:107-183 | one response and one count per request, with 400, 403, 502 or upstream's own status; a round trip exactly for allowed absolute requests and to the host they name; an allow event exactly if it brings a response; byte counts and event carry what was read off the request body and copied of the response |
| Exchanges.ForwardPort | internal/proxy/handler.go:117 | a host without a port is asked about and audited on 443 for https and on 80 for every other scheme |
| Exchanges.ConnectAuditsMatch | internal/proxy/handler.go:425-439 | for CONNECT an allow event goes with the allow count, a deny event with the deny count, at most one event in all |
| ConnectLaws.PreambleReads | internal/proxy/handler.go:361-380 | a reader finds in the preamble a CONNECT request for the host and exactly the fields Host, Proxy-Authorization if credentials are set, and each extra header with its own value |
| ConnectLaws.PreambleIsOneHeader | internal/proxy/handler.go:361-380 | the preamble ends where its header does, whatever follows |
| ConnectLaws.TunnelNeedsYes | internal/proxy/handler.go:383-421 | an allow event, an allow count or a byte beyond the preamble means that all before succeeded and upstream answered 200 |
| ConnectLaws.CountsTellPeers | internal/proxy/handler.go:325-440 | each count goes up exactly for its own behaviour of the peers: a refusal, no connection or no answer, an answer other than 200, a tunnel |
| ConnectLaws.ResponsesTellPeers | internal/proxy/handler.go:328-341 | 403 exactly for what is not allowed, 500 exactly if the connection cannot be taken over, and neither peer gets a byte then |
| ConnectLaws.AuditTellsBytes | internal/proxy/handler.go:421-439 | an allow event names the pair asked about and the bytes of the tunnel alone, by which the byte counters go up |
| ConnectLaws.SentIsInOrder | internal/proxy/handler.go:361-413 | upstream gets a beginning of preamble, bytes sent ahead and upload, in this order |
| ConnectLaws.EstablishedMeansYes | internal/proxy/handler.go:402-404 | the client is told that the connection is established exactly if upstream said 200 |
| ConnectLaws.ClientReadsStatus | internal/proxy/handler.go:348-401 | a reader of the reply finds 502 if upstream could not be reached or gave no answer, and else the code upstream gave |
| ConnectLaws.RepliesAreOneHeader | internal/proxy/handler.go:348-404 | the proxy's own replies are one header and nothing more |
| Exchanges.ForwardAuditsMatch | internal/proxy/handler.go:169-182 | the same for the forward path |
| Exchanges.UploadHandover | internal/proxy/handler.go:361-422 | upstream accepts preamble, buffered bytes and a prefix of what the client sends next, in order; payload is buffered plus bytesOut |
| UpstreamReaders.UpstreamReader.ReadResponse | internal/proxy/handler.go:382-389 | reading socket read by socket read until the header is complete finds the answer the specification finds |
| UpstreamReaders.UpstreamReader.CloseBody | internal/proxy/handler.go:390 | afterwards the reader has taken off the socket what the specification says |
| UpstreamReaders.HeaderEndIsFirst | internal/proxy/handler.go:383 | the header ends after the first blank line, and where it ends does not depend on what follows |
| HeaderTexts.HeaderEndsAtBlank | internal/proxy/handler.go:383 | of a text made of lines the header ends with the first blank line after the first line, whatever follows |
| HeaderTexts.NoHeaderEnd | internal/proxy/handler.go:383 | a text without such a line has no header end |
| HeaderTexts.WholeHeaderIsParsed | internal/proxy/handler.go:382-383 | the header of a response is parsed whole, however the network cuts the stream |
| UpstreamReaders.SizedBodyTakes | internal/proxy/handler.go:390 | closing a body of n bytes takes no more once n bytes past the header are held, and nothing for n = 0 |
| UpstreamReaders.AnswerIsTheStreams | internal/proxy/handler.go:382-383 | the answer is that of the stream, however the network cuts it |
| UpstreamReaders.LossExactly | internal/proxy/handler.go:382-421 | nothing is lost if and only if a socket read ends exactly at the header's end and none follows to look for a body |
| UpstreamReaders.LossFitsTheBuffer | internal/proxy/handler.go:382-383 | without an announced body less than one buffer is lost |
| UpstreamReaders.EveryCutIsSafe | internal/proxy/handler.go:382-421 | nothing is lost however the network cuts the stream if and only if upstream sends nothing after the header before the tunnel is up |
| UpstreamReaders.SomeCutIsSafe | internal/proxy/handler.go:390 | if it does send more, some cut is safe if and only if no body is announced |
| Exchanges.DownloadHandover | internal/proxy/handler.go:382-421 | upstream's stream is header, then what the reader took beyond it, then what the tunnel reads, of which the client gets a prefix; a client that got all of that has everything after the header if and only if no socket read of the reader went past the header |
| Exchanges.GreetingIsLost | internal/proxy/handler.go:382-421 | whatever header says 200, a greeting that arrives with it is lost on a run that tunnels |
| Fleet.GaugeCountsActive | internal/proxy/handler.go:358-359 | over any interleaving of any number of handlers the gauge is the number of requests between Inc and Dec |
| Fleet.GaugeReturnsToZero | internal/proxy/handler.go:133-134 | it is 0 when every request is served |
| Fleet.ContactIsCounted | internal/proxy/handler.go:133-134 | bytes and round trips reach upstream only between Inc and Dec |

## Left out

- Text.ToLower: maps ASCII letters only; case mapping of other Unicode letters in host names is not modelled.
- HostPort.SplitHostPort: the parsing functions of package net and strconv are written out from their documented behaviour, as their sources are not part of the repository.
- Exchanges.Exchange.HandleForward: the transport's pooling, retries, chunk framing and the https scheme are one nondeterministic round trip, and the error branch after buildUpstreamRequest is absent because that function returns no error.
- Exchanges.Exchange.RunTunnel: the bytes of each direction are entered into the books as a whole; how the two directions interleave is in `Tunnel`.
- Tunnel.Apply: io.Copy is the generic read-write loop; the splice shortcut for bare TCP connections is not modelled, nor is time spent between the program's own steps.
- UpstreamReaders.ReadAnswer: net/http and bufio are written out from their documented behaviour, as their sources are not part of the repository: where a header ends, when a socket read happens, and what closing a body reads; what the header says (code, status line, framing) and where a chunked body ends are uninterpreted.
- Certs.Pki: X.509 and PEM parsing, and the TLS handshake, are uninterpreted.
- CertProtocol.Apply: lost or overflowing fsnotify events and errors from its error channel, which change nothing, are not steps.
- WatcherProtocol.Apply: the informer's list and watch are reduced to a cache, an event queue and resync events; writer preference of the lock is not modelled.
- Caller identity for the audit log, /healthz, /readyz, /debug/allowlist, log levels, flags other than extra headers, shutdown, and all deployment files but the one line that names the environment variables: each is settled by a single branch or is configuration.
