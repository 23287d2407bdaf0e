# Gateway verification

A Dafny model of the gateway that carries HTTP and WebSocket traffic to machines behind one tunnel,
with throttled logins, bounded sessions, a remote supervisor and an audit log. `dafny verify
dfyconfig.toml` checks everything.

The stateful parts are classes with the program's own fields (`LoginThrottle`, `NodeRegistry`,
`BinaryFrameParser`, `NodeSocket`, `Connection`, `Relay`, `SessionStore`, `DaemonControlRegistry`, `Supervisor`,
`InMemoryStore`, `AuditRetention`). Every method is tied to a step function on the same state, and
the theorems are about whole runs of those steps: any events, in any order, of any number.

* **Login throttle** - `ThrottleModel`, `LoginThrottles`, `ThrottleRestart`, `ThrottleJudge`,
  `LoginDesk`, `SlidingWindow`, `WindowIsTight`, `Lockout`, `RetryAfter`. Memory and storage are not
  equal, for several paths filter a list and do not save it; they are related by a simulation. A restart
  is a step like any other, so each result below holds through restarts. The throttle as a whole refines
  a judge that knows only the events.
* **Tunnel** - `FrameCodec`, `Wire`, `RegistryModel`, `NodeRegistries`, `RelayLifecycle`, `Leases`,
  `Approval`, `Ownership`, `Untouched`, `Seats` on the gateway, `GatewayInbox` for its sockets;
  `AgentModel`, `AgentTransport`, `UpstreamLine`, `AgentConnections` on the agent; `EndToEnd` and
  `Tunnels` put the two together on the way there, `AgentReplies`, `ChannelHearing`, `WayBack`,
  `AnsweredWhole` and `TunnelBack` on the way back.
  `ResponseWriter`, `ConsoleAdapt` and `Utf8` write the answer to the browser.
* **Lifecycle control** - `ControlModel`, `DaemonControls`, `Numerals`; `SupervisorModel`,
  `Readiness`, `OneChild`, `SupervisorLives`, `Supervisors`; `SplitCommands`.
* **Audit and sessions** - `AuditModel`, `AuditCsv`, `AuditStores`; `SessionModel`, `Sessions`,
  `OrderedMaps`.

Sends are appends to logs, timers are sets of armed ids that fire as explicit events, storage is a
map, and clocks are event times that do not run backwards where a theorem says so. Steps are the
synchronous sections between awaits; where a property needs a caller to wait for a whole operation
(the throttle, the store), one operation is one step.

What came out false is shown on a run or an input that breaks it, with the condition under which it
does hold:

* The per-IP cap. With up to K logins of an IP in flight a number bounds the failures in every window
  of every run if and only if it is at least ipMax + K - 1 (`WindowIsTight.CapHoldsIff`); ipMax itself
  only for logins one at a time (`RetryAfter.ConcurrentLoginsBreakBoth` breaks it with two).
* Retry-After for an IP. It is measured from the oldest live attempt and the release from the one at
  the cap, so waiting as told is enough, whatever runs meanwhile without a new failure, if and only if
  these lie no further apart than the wait was rounded up (`RetryAfter.IpRetryAfter`, broken by the
  same run).
* Retry-After for an account. A failing login in flight when the lock was set counts against the
  locked account, and the first check after the lock locks it again (`RetryAfter.LateFailureLocksAgain`).
  A check is refused if and only if the lock still holds or as many failures as lock an account are
  still counted (`RetryAfter.AccountRetryAfter`). With logins one at a time both promises hold
  (`RetryAfter.SerialRetryAfter`).
* A finished stop can be overruled by a readiness wait it superseded (`Readiness.StopCanBeOverruled`),
  exactly when the token was bumped between the wait's wake and its probe's answer
  (`Readiness.SupersededWriteIff`). Without a probe no token is asked for at all: a start script that
  ends late overrules a stop (`Readiness.LateScriptOverrules`), exactly when a token was taken since
  the script was launched (`Readiness.UnprobedScriptWrites`).
* dsh can be started twice: starts are not serialised (`OneChild.StartsOverlap`). Pending starts can
  leave more than one process exactly when starts and processes together are more than one
  (`OneChild.OneChildIff`); with starts called apart there is never a second (`OneChild.NoDuplicate`).
* A start ends in RUNNING or EXITED. Without a command to run it writes STARTING and leaves nothing under
  way to settle it (`SupervisorLives.StartWithoutCommand`).
* The text of a held HTML page re-encodes to the upstream's bytes exactly when each chunk is valid
  UTF-8 on its own (`ResponseWriter.ReencodesExactly`); a character cut in two is lost
  (`ResponseWriter.CutCharacterIsLost`).
* A channel hears every socket: frames are routed by their channel alone, before any onboarding. It is
  asked what all sockets together say about it (`ChannelHearing.AskedIsSaid`), and just what its own
  machine's socket says if and only if nothing else amounts to a message about it
  (`ChannelHearing.OwnSocketAloneIff`); one frame on another socket breaks it
  (`ChannelHearing.StrangerIsHeard`).
* A response has one head and the local server's status. When the local connection breaks, the agent
  says a 502 and an end whatever it has said before: the one response if and only if no head was said;
  else a second head in the middle of a streamed response, or a 502 with what there is of a held page
  (`ResponseWriter.LateFailureHeadsTwice`).
* A purge with a limit deletes the first older rows stored, not the oldest as the store's interface
  promises (packages/store/src/IStore.ts:58-63). They are the oldest exactly when no older row
  within the limit is later than one stored beyond it (`AuditModel.PurgeTakesOldestIff`): always while
  the clock of the appends does not step back (`AuditModel.InOrderTakesOldest`), not always once it
  has (`AuditModel.SteppedBackClock`).
* A command argument that is empty vanishes in splitting (`SplitCommands.SplitUndoesQuoting`).

Two places where the code and its own words differ, and the model follows the code: a query with an
offset and no limit returns every row (packages/store/src/memory.ts:93-107), and the branch of `stop`
that refuses for want of a stop command cannot be taken, for the state it asks for has just been
overwritten (plugins/dsh-gateway-agent/src/daemon.js:450-484).

## Model

| member | source | states |
|---|---|---|
| ThrottleRestart.RestartTransparency | apps/gateway/src/login-throttle.ts:72-179 | after any history, a process that reloads its rows at `now` answers every later sequence of operations as the old process would have |
| ThrottleRestart.RestartsAreInvisible | apps/gateway/src/login-throttle.ts:72-179 | any number of restarts anywhere in a run changes no answer of the run |
| ThrottleRestart.Simulation | apps/gateway/src/login-throttle.ts:72-179 | a throttle that may restart and one that never does, with memories that differ only in expired stamps, answer alike for ever |
| ThrottleRestart.StepSynced | apps/gateway/src/login-throttle.ts:88-179 | every operation keeps the stored rows standing for the memory: same keys, same lock fields, stamps equal up to expired ones |
| ThrottleRestart.StepAgrees | apps/gateway/src/login-throttle.ts:88-179 | throttles with agreeing memories give the same answer to each operation and go on agreeing |
| ThrottleRestart.PruneAgrees | apps/gateway/src/login-throttle.ts:155-179 | a prune drops the same accounts and IPs from memories that agree only up to expired stamps |
| ThrottleRestart.RestartSynced | apps/gateway/src/login-throttle.ts:72-85 | hydrating an empty process yields a memory its rows stand for, and leaves the rows alone |
| ThrottleJudge.EveryCheckIsJudged | apps/gateway/src/login-throttle.ts:88-179 | every check of every run, through prunes and restarts, is answered exactly as a judge decides it from the failures and successes before: by the IP's failures in one window, by a lock still in force, or by enough failures of the account in one window since its last success and its last lock |
| ThrottleJudge.KeepsRun | apps/gateway/src/login-throttle.ts:72-179 | in every run memory holds of each account and IP all that still counts, and nothing else |
| ThrottleJudge.PruneLeavesWhatCounts | apps/gateway/src/login-throttle.ts:155-179 | a prune leaves exactly the IPs with an attempt within the window and the accounts locked or with a failure within theirs, in memory and in storage alike |
| LoginThrottles.LoginThrottle.Hydrate | apps/gateway/src/login-throttle.ts:72-85 | rows are loaded over the memory with their lists filtered; the rows stay as they are |
| LoginThrottles.LoginThrottle.CheckLogin | apps/gateway/src/login-throttle.ts:88-119 | IP first, then account; filtered lists are not saved, a new lockout is |
| LoginThrottles.LoginThrottle.Fail | apps/gateway/src/login-throttle.ts:122-144 | one stamp for the IP and one for the account, both written through |
| LoginThrottles.LoginThrottle.Succeed | apps/gateway/src/login-throttle.ts:147-152 | the account's entry goes, in memory and in storage, and nothing else; nothing from before counts any more (`ThrottleJudge`) |
| LoginThrottles.LoginThrottle.Prune | apps/gateway/src/login-throttle.ts:155-179 | all lists filtered, spent entries dropped, and exactly the dropped keys deleted from storage |
| LoginThrottles.ThrottleRows.SaveThrottleAccount | packages/store/src/memory.ts:127-129 | one account row is set, no other row changes |
| LoginThrottles.ThrottleRows.DeleteThrottleIp | packages/store/src/memory.ts:139-141 | one IP row goes, no other row changes |
| LoginDesk.DeskRunSynced | apps/gateway/src/auth.ts:266-313 | with logins checked now and settled later, prunes and reboots between, storage goes on standing for memory |
| SlidingWindow.SlidingWindowBound | apps/gateway/src/login-throttle.ts:91-98 | with at most K logins of an IP in flight, no interval of one window length ever holds more than ipMax + K - 1 recorded failures, through prunes and restarts |
| WindowIsTight.CapHoldsIff | apps/gateway/src/login-throttle.ts:91-98 | a number bounds the failures of every window in every run with at most K logins in flight if and only if it is at least ipMax + K - 1 |
| WindowIsTight.BoundIsReached | apps/gateway/src/auth.ts:273-302 | for every setting and every K there is a run that reaches that bound |
| SlidingWindow.GuardedStep | apps/gateway/src/auth.ts:273-302 | each event keeps every live failure in memory, and room in the window for every login in flight |
| Lockout.LockLastsBackoff | apps/gateway/src/login-throttle.ts:106-115 | a lock lasts the back-off indexed by the locks before it since the entry last vanished, capped at the last one, through restarts |
| Lockout.LockCountIsHistory | apps/gateway/src/login-throttle.ts:101-115 | the stored counter is that number of earlier locks, in every run |
| Lockout.LockHolds | apps/gateway/src/login-throttle.ts:101-104 | until its end a lock refuses every check of the account, and no prune, restart or other login shortens or clears it |
| Lockout.LockoutLifetime | apps/gateway/src/login-throttle.ts:101-116 | a lock set in any reachable state, with none of the account's logins in flight, refuses every check before its end and none right after |
| RetryAfter.IpReleaseOverRuns | apps/gateway/src/login-throttle.ts:91-98 | after a refusal by IP in any reachable state, through any run in which no login from the IP fails, a check from it is refused exactly before the release |
| RetryAfter.IpWait | apps/gateway/src/login-throttle.ts:96-97 | the wait overshoots the release by less than a second, and reaches it if and only if the attempt at the cap lies no further from the oldest than the rounding; at the cap itself always |
| RetryAfter.IpRetryAfter | apps/gateway/src/login-throttle.ts:91-98 | waiting as told is enough, through any run without a new failure of the IP, if and only if the attempt at the cap lies no further from the oldest than the rounding of the latter's distance to its end |
| RetryAfter.AccountRetryAfter | apps/gateway/src/login-throttle.ts:100-116 | after a refusal by account in any reachable state, through any run that settles none of its logins, it is refused if and only if the lock holds or accountMax failures are still counted; Retry-After reaches the end of the lock and overshoots by less than a second |
| RetryAfter.SerialRetryAfter | apps/gateway/src/login-throttle.ts:88-119 | with logins one at a time up to the refusal, for both reasons and through any later run that adds nothing against the login: refused exactly until one instant, which Retry-After reaches and overshoots by less than a second |
| RetryAfter.ConcurrentLoginsBreakBoth | apps/gateway/src/auth.ts:273-302 | a run with two logins in flight that exceeds a cap of one and is then told to wait too short a time |
| RetryAfter.LateFailureLocksAgain | apps/gateway/src/login-throttle.ts:131-136 | a run in which a login fails after the lock was set, and an account that has waited as told is locked again |
| FrameCodec.EncodeFrame | packages/protocol/src/codec.js:58-66 | the header written in place is the wire form with kind and ids cut to their width; a payload of 2^32 bytes or more throws |
| FrameCodec.BinaryFrameParser.Push | packages/protocol/src/codec.js:92-108 | returns every complete frame at the front of buffer and chunk, and keeps exactly the rest |
| FrameCodec.ParseConserves | packages/protocol/src/codec.js:92-108 | for arbitrary bytes: the frames re-encode to the bytes consumed, and what is left holds no complete frame |
| FrameCodec.ParseIsUnique | packages/protocol/src/codec.js:92-108 | there is only one way to split bytes into frames and an incomplete tail |
| FrameCodec.ChunkingIsInvisible | packages/protocol/src/codec.js:92-108 | the frames and the buffer after any pushes do not depend on how the bytes were cut |
| FrameCodec.RoundTrip | plugins/dsh-gateway-agent/src/protocol.js:91-127 | the encodings of any frames in range, cut into any chunks, come out as exactly those frames, with an empty buffer |
| FrameCodec.PushesConserve | packages/protocol/src/codec.js:82-109 | frames returned so far, re-encoded, and the buffer are all the bytes fed |
| RegistryModel.NodeKeyInjective | apps/gateway/src/nodes.ts:61-63 | two sockets share a key only if they have the same machine and role, even when a machine id holds a colon |
| NodeRegistries.NodeRegistry.OpenStream | apps/gateway/src/nodes.ts:299-346 | without an approved console node the handler gets its error; else a new channel enters both tables with its timer armed, and the request and its body go out; an oversized body throws after the announcement; the life cycle is kept |
| NodeRegistries.NodeRegistry.SendRequest | apps/gateway/src/nodes.ts:311-326 | the announcement, then the body in one frame if there is one |
| NodeRegistries.NodeRegistry.OpenWs | apps/gateway/src/nodes.ts:411-421 | a new channel enters both tables and the open goes to the machine's console node |
| NodeRegistries.NodeRegistry.BrowserSend | apps/gateway/src/nodes.ts:423-427 | one frame with its kind on the channel to the current node of the channel's machine, or nothing; throws exactly when the data is too long for a frame |
| NodeRegistries.NodeRegistry.BrowserClose | apps/gateway/src/nodes.ts:429-437 | the node is told if it is there; the channel leaves both tables either way |
| NodeRegistries.NodeRegistry.Frame | apps/gateway/src/nodes.ts:501-505 | a frame goes to the WebSocket channel of its id, else to the relay of its id with the timer re-armed, else nowhere |
| NodeRegistries.NodeRegistry.Response | apps/gateway/src/nodes.ts:574-581 | a registered relay's handler is called with status and headers and its timer re-armed; any other id is ignored |
| NodeRegistries.NodeRegistry.End | apps/gateway/src/nodes.ts:583-592 | a registered relay leaves both tables with its timer cleared and is ended; any other id is ignored |
| NodeRegistries.NodeRegistry.WsOpenOk | apps/gateway/src/nodes.ts:594-597 | a registered channel is told, any other id ignored |
| NodeRegistries.NodeRegistry.WsClose | apps/gateway/src/nodes.ts:599-605 | a registered channel is told its code; the id leaves both tables |
| NodeRegistries.NodeRegistry.IdleTimeout | apps/gateway/src/nodes.ts:334-341 | an armed timer that fires removes the relay from both tables and errors it |
| NodeRegistries.NodeRegistry.DropChannelsForMachine | apps/gateway/src/nodes.ts:447-487 | all channels of the machine leave all tables with one last call each; no other channel changes |
| NodeRegistries.NodeRegistry.SocketClose | apps/gateway/src/nodes.ts:608-616 | evicts the entry only if it is still this socket's, drops the machine's channels, and fails the control requests if it was a supervisor |
| NodeRegistries.NodeRegistry.Attached | apps/gateway/src/nodes.ts:516-533 | the socket gets its identity and takes the entry of its machine and role with a fresh lease |
| NodeRegistries.NodeRegistry.Heartbeat | apps/gateway/src/nodes.ts:542-558 | renews the entry of the sender's own machine and role, whoever holds it, and grants a lease; a sender without an entry is closed with 4004 |
| NodeRegistries.NodeRegistry.ExpireLeases | apps/gateway/src/nodes.ts:756-764 | removes exactly the entries whose lease has run out and closes their sockets with 4005 |
| NodeRegistries.NodeRegistry.DetachMachine | apps/gateway/src/nodes.ts:271-297 | exactly a revoked or deleted machine's entries leave the table, their sockets closed with 4003 or 4000, and the control requests fail |
| NodeRegistries.NodeRegistry.ApproveMachine | apps/gateway/src/nodes.ts:254-268 | exactly the machine's entries are promoted, and their sockets told |
| Approval.SeatsAreTold | apps/gateway/src/nodes.ts:254-297 | in every run a machine has an entry in a role exactly if the events leave it one, held by that socket, with that lease, and approved exactly if it came in approved or was approved since |
| Approval.RelayedIffApproved | apps/gateway/src/nodes.ts:299-346 | in every run a relay is opened if and only if its machine has a connected and approved console, and is sent to that console's socket and no other; otherwise it is refused with its own reason and nothing is sent |
| Approval.TunnelledIffApproved | apps/gateway/src/nodes.ts:411-421 | the same for a browser's WebSocket |
| Approval.ToldExactly | apps/gateway/src/nodes.ts:140-153 | in every run sockets and waiting control requests are told exactly what the events give cause for: closes with the code of their cause, leases, approvals, failures |
| Ownership.ChannelsAreOwned | apps/gateway/src/nodes.ts:310-346 | in every run channels are numbered in the order of the accepted openings, and an open channel belongs to the machine it was opened for |
| Ownership.BrowserReachesItsMachine | apps/gateway/src/nodes.ts:423-437 | what a browser sends on an open tunnel, and its close, go to the console socket of that tunnel's own machine, if it is connected, and to no other |
| Ownership.NoTunnelNoSend | apps/gateway/src/nodes.ts:423-437 | on a channel that is no tunnel nothing is sent and nothing thrown |
| NodeRegistries.NodeRegistry.Shutdown | apps/gateway/src/nodes.ts:140-153 | every node is closed with 4000, the control requests fail, every relay is errored with its timer cleared, and all tables are empty |
| RelayLifecycle.InvStep | apps/gateway/src/nodes.ts:299-346 | every handler keeps: equal keys in paired tables, disjoint kinds, ids already handed out, timers for exactly the registered relays, each started at its opening and again with every call, and each channel's calls ending at most once |
| RelayLifecycle.LifecycleHolds | apps/gateway/src/nodes.ts:489-614 | all of that in every run: at most one of onEnd and onError a relay and one onClose a tunnel, and nothing after it |
| RelayLifecycle.SilentOnceGone | apps/gateway/src/nodes.ts:574-605 | once a channel has left the tables nothing ever reaches its handlers again |
| RelayLifecycle.SocketCloseDropsExactly | apps/gateway/src/nodes.ts:608-614 | a close of any socket of machine m leaves no channel of m, each told once, and touches no channel of another machine |
| Leases.BeatingIsNeverExpired | apps/gateway/src/nodes.ts:542-548 | an entry whose signs of life are at most one lease apart is never removed by an expiry tick, whatever else happens |
| Leases.ExpiryIsSilence | apps/gateway/src/nodes.ts:756-764 | in any reachable state a tick removes an entry if and only if it has been silent for longer than the lease |
| Leases.GoneInTime | packages/protocol/src/constants.js:7-10 | an entry silent since t, with ticks at most one interval apart, is gone at every instant after t plus one lease and one interval, and at that instant if the latest tick is less than an interval old |
| Leases.SupersededCloseIsHarmless | apps/gateway/src/nodes.ts:608-613 | closing a socket evicts the entry exactly when it is still that socket's own |
| AgentConnections.Connection.OnMessage | plugins/dsh-gateway-agent/src/index.js:197-259 | a message changes parser, bodies and upstreams as the data plane says, frame by frame |
| AgentConnections.Connection.CollectRequestBody | plugins/dsh-gateway-agent/src/index.js:359-369 | pieces are kept until the announced length is reached, then the request goes out once with all of them |
| AgentConnections.Connection.OnLocal | plugins/dsh-gateway-agent/src/index.js:398-438 | a first denial sends the request again and says nothing; head, chunks, end and failure are said to the gateway as they come |
| AgentConnections.Connection.HandleRelayRequest | plugins/dsh-gateway-agent/src/index.js:371-378 | a request without a body goes out at once, another waits for its bytes |
| AgentConnections.Connection.HandleWsOpen | plugins/dsh-gateway-agent/src/index.js:441-449 | a fresh upstream with the path and headers of the open and an empty queue takes the channel |
| AgentConnections.Connection.UpstreamOpened | plugins/dsh-gateway-agent/src/index.js:451-455 | the gateway is told, and an upstream that still has the channel is sent its whole queue in order and lets everything through from then on (`UpstreamLine`) |
| AgentConnections.Connection.UpstreamClosing | plugins/dsh-gateway-agent/src/index.js:203-206 | an upstream that starts to close keeps its channel, so frames that come in now queue |
| AgentConnections.Connection.UpstreamClosed | plugins/dsh-gateway-agent/src/index.js:460-461 | the gateway is told the code; an upstream that dies keeps its channel, so later frames queue |
| AgentModel.RunIsItems | plugins/dsh-gateway-agent/src/index.js:200-212 | running the connection is meeting its frames one by one: the cutting of the byte stream is invisible |
| AgentTransport.ChannelsAreIndependent | plugins/dsh-gateway-agent/src/index.js:202-210 | a channel fares as if its own traffic were all there was |
| AgentTransport.BodyCompletes | plugins/dsh-gateway-agent/src/index.js:359-369 | however the missing bytes are cut into frames, empty ones included, the request goes out once, whole |
| AgentTransport.RequestsForwardedOnce | plugins/dsh-gateway-agent/src/index.js:197-211 | a request followed by any splitting of its body, interleaved with anything, is forwarded exactly once with its own request and exact body |
| UpstreamLine.TunnelFlows | plugins/dsh-gateway-agent/src/index.js:197-259 | in every run each tunnel is at the agent just as its inputs tell it: the upstream opened last, with its own path and headers; what has come in is passed on at once while that is open, and waits in order before it opens and after it begins to close |
| UpstreamLine.LineIsArrived | plugins/dsh-gateway-agent/src/index.js:200-212 | what has come in for a tunnel are the frames of its own channel since the open, kinds included |
| EndToEnd.RelayedExactlyOnce | apps/gateway/src/nodes.ts:310-326 | in one gateway lifetime, whatever front part of its socket's messages the agent has received: an accepted relay has been handed to the local server exactly once, with its own method, path, headers and exact body, if all of it has come in, and not at all otherwise; a second time, the same, only after a denial |
| EndToEnd.RetriedAtMostOnce | plugins/dsh-gateway-agent/src/index.js:401-415 | a request is sent a second time at most once, unchanged, only if it was sent a first time and only after a 401 for which a fresh cookie could be minted |
| EndToEnd.NothingElseForwarded | apps/gateway/src/nodes.ts:310-326 | a channel that is no accepted relay is never forwarded, nor is a request whose body was too large to send, however much has been received |
| EndToEnd.ShapeRun | apps/gateway/src/nodes.ts:299-437 | in every run the messages of a channel keep their shape, and once its request is out a relay channel carries nothing more |
| EndToEnd.ItemsOnChannel | plugins/dsh-gateway-agent/src/index.js:200-211 | the agent meets the messages of a channel one frame each, in the order sent |
| Tunnels.TunnelEndToEnd | apps/gateway/src/nodes.ts:402-427 | from browser to local upstream, at every point: the upstream has the path and headers of the browser's open; what has come in is a front part of what the browser's sends put on that socket since, all of it once all messages have come in; while the upstream is open all that has come in has been passed on, in order, kinds included |
| Tunnels.PostedArrives | apps/gateway/src/nodes.ts:423-427 | what a receiver of a tunnel's messages sees arrive grows by exactly what is posted, in every run |
| GatewayInbox.NodeSocket.OnMessage | apps/gateway/src/nodes.ts:498-606 | a message is parsed by its socket's own parser and its frames, or its control event, go to the registry; the life cycle is kept |
| GatewayInbox.ArrivalsAreEvents | apps/gateway/src/nodes.ts:498-505 | taking in messages from any sockets is running the registry on the events they amount to |
| GatewayInbox.CutsAreInvisible | apps/gateway/src/nodes.ts:496-506 | however a socket's bytes are cut into messages, and whatever comes in between on other sockets, they amount to the frames of its bytes in one piece |
| GatewayInbox.OwnIsTaken | apps/gateway/src/nodes.ts:489-497 | everything else the registry reacts to reaches it as it is, and no parser |
| WayBack.CallsFollow | apps/gateway/src/nodes.ts:447-605 | in every run an open channel, relay or tunnel, is called exactly as the messages about it ask, in order, up to its end, or up to the event that broke it off: exactly if there is one |
| WayBack.ResponseWritten | apps/gateway/src/router.ts:90-178 | of any front part of a response asked of an open relay the browser is sent just that, and all of it ended once when all was asked; if the relay is broken off, the head and a front part of the chunks asked, or the 502 alone |
| AgentReplies.AgentSays | plugins/dsh-gateway-agent/src/index.js:420-461 | what the agent has sent is what its inputs make it say, in order |
| AgentReplies.SaidOnChannel | plugins/dsh-gateway-agent/src/index.js:420-461 | on a channel the agent says exactly what the local side does on it, whatever else it says |
| ChannelHearing.AskedIsSaid | apps/gateway/src/nodes.ts:498-605 | a channel is asked exactly what all sockets together say about it, in the order it arrives, control messages counting only from onboarded sockets |
| ChannelHearing.OwnSocketAloneIff | apps/gateway/src/nodes.ts:498-505 | a channel is asked just what one socket says about it if and only if nothing else amounts to a message about it, whatever bytes the other sockets send |
| ChannelHearing.StrangerIsHeard | apps/gateway/src/nodes.ts:498-505 | in any reachable state one frame on another socket, onboarded or not, is data of an open relay whose own machine has said nothing |
| AnsweredWhole.AnsweredExactlyOnce | plugins/dsh-gateway-agent/src/index.js:417-437 | at every point, of what the local server has answered on an open relay and the gateway has heard, pages to inject into and failures before the head included: the browser is sent just that if nothing breaks the relay off, all of it ended once when all was heard, otherwise the head and a front part of the chunks heard or the 502 alone |
| AnsweredWhole.ThereAndBack | apps/gateway/src/router.ts:113-184 | at every point of an accepted relay: handed over once and whole if it has arrived, and the browser has been sent what was heard of the answer, in the same sense |
| TunnelBack.TunnelAnswered | apps/gateway/src/nodes.ts:381-394 | at every point of an open tunnel its handlers have been called as its local upstream does, as far as the gateway has heard, up to the first close or the event that broke it off; the browser is handed a front part of what the upstream says, in order, kinds included, and all of it if nothing broke the tunnel off and all was heard |
| TunnelBack.BothWays | apps/gateway/src/nodes.ts:372-409 | both directions of a tunnel, from its opening on, at every point of one run |
| ResponseWriter.PlainResponse | apps/gateway/src/router.ts:118-178 | a response not to be injected: one head before any byte, the exact upstream bytes, one end, in success and in failure |
| ResponseWriter.HeldPage | apps/gateway/src/router.ts:145-178 | a page that fits is sent whole, never cached, with the injections in its text; on error the 502 and nothing of the page |
| ResponseWriter.OversizedPage | apps/gateway/src/router.ts:135-144 | a page that overflows the buffer is streamed after all: one head, the held chunks as re-encoded text and the others as they are, one end; the exact bytes if and only if the held chunks were well-formed |
| ResponseWriter.ServedAsItComes | apps/gateway/src/router.ts:113-178 | every response at every point of it: what has been written so far, and what its end and its failure make of that |
| ResponseWriter.HeadsOfServed | apps/gateway/src/router.ts:118-172 | of everything sent of a response only the first operation is a head: the upstream's status, no content-length, transfer-encoding or connection, every other header the upstream's own; a page injected into is no-store and has no validators |
| ResponseWriter.HeadOfUnderway | apps/gateway/src/router.ts:118-139 | the same of the head that is out while a response is under way |
| ResponseWriter.HeldIff | apps/gateway/src/router.ts:103-128 | a page is held back exactly if it was asked for with GET, succeeded, is HTML by its content type in whatever case, and is not compressed |
| ResponseWriter.FitsIff | apps/gateway/src/router.ts:135-145 | it is held to its end exactly if the text held and the next chunk never exceed 256 KiB together |
| ResponseWriter.DataBeforeHead | apps/gateway/src/router.ts:129-134 | data that comes before any head has begun the response: exactly its bytes, and neither end nor failure writes a head any more |
| ResponseWriter.NothingCame | apps/gateway/src/router.ts:90-101 | a response of which nothing came is an empty 200, or the 502 with its error |
| ResponseWriter.LateFailureHeadsTwice | plugins/dsh-gateway-agent/src/index.js:434-437 | a local connection that breaks before its head is one response, the 502; after it, a streamed response is asked for a second head, and a held page becomes a 502 with what there is of it |
| ResponseWriter.ReencodesExactly | apps/gateway/src/router.ts:140-145 | text decoded chunk by chunk encodes back to the bytes if and only if each chunk is valid on its own |
| ResponseWriter.CutCharacterIsLost | apps/gateway/src/router.ts:145 | a page of one two-byte character cut across two chunks is served as two replacement characters |
| ResponseWriter.Relay.Response | apps/gateway/src/router.ts:118-128 | holds an injectable page back, else writes the head without content-length and the hop headers |
| ResponseWriter.Relay.Data | apps/gateway/src/router.ts:129-146 | streams, holds, or flushes what was held and gives up holding |
| ResponseWriter.Relay.Finish | apps/gateway/src/router.ts:147-175 | ends a held page with its injections, or ends the stream |
| ResponseWriter.Relay.Fail | apps/gateway/src/router.ts:90-101 | ends a started response, else answers 502 |
| ConsoleAdapt.InjectedAtOnePoint | apps/gateway/src/console-adapt.ts:43-96 | the page served is the upstream text with the missing payloads, ownership first, at one point: the first head end, else the last body end, else the end |
| ConsoleAdapt.OwnershipIsTransparent | apps/gateway/src/console-adapt.ts:63-71 | the first payload neither hides nor fakes the other's marker, and moves the insert point past itself |
| ConsoleAdapt.PointMoves | apps/gateway/src/console-adapt.ts:43-49 | markup without the two end tags leaves the insert point where it was, past the markup |
| ConsoleAdapt.InjectionIsIdempotent | apps/gateway/src/console-adapt.ts:63-96 | a second gateway in the chain injects nothing more |
| Utf8.DecodeEncoded | apps/gateway/src/router.ts:140-145 | encoded text decodes to itself, whatever bytes follow (section 3 of RFC 3629) |
| Utf8.ValidIsEncoded | apps/gateway/src/router.ts:140-145 | what encodes some text is well-formed and decodes to that text |
| Utf8.DecodingNeverShrinks | apps/gateway/src/router.ts:145 | replacing ill-formed bytes never makes a chunk shorter |
| Utf8.DecodesOrReplaces | apps/gateway/src/router.ts:145 | decoding makes up no character: each is that of exactly the bytes it takes up, or U+FFFD |
| Utf8.Utf16LengthCounts | apps/gateway/src/router.ts:135 | the length compared with the cap is the number of UTF-16 units of the text |
| DaemonControls.SettledExactlyOnce | apps/gateway/src/daemon-control.ts:34-83 | in every run each request is pending or settled exactly once, and by the first of its result, its timer and a failure of all; other requests play no part |
| DaemonControls.RunConsistent | apps/gateway/src/daemon-control.ts:49-82 | in every run ids are pairwise distinct, timers are armed for exactly the pending requests, and pending equals registered minus settled |
| DaemonControls.OutcomeStands | apps/gateway/src/daemon-control.ts:65-82 | an outcome, once given, stands for ever |
| ControlModel.RequestIdsDiffer | apps/gateway/src/daemon-control.ts:50 | ids with different numbers differ, whatever the clock says |
| DaemonControls.DaemonControlRegistry.Register | apps/gateway/src/daemon-control.ts:49-62 | a new id never used before, pending with its timer armed |
| DaemonControls.DaemonControlRegistry.Settle | apps/gateway/src/daemon-control.ts:65-72 | true exactly for a pending id, which is then settled with its timer cleared; else nothing changes |
| DaemonControls.DaemonControlRegistry.OnTimeout | apps/gateway/src/daemon-control.ts:54-58 | the request is settled once, as timed out |
| DaemonControls.DaemonControlRegistry.FailAll | apps/gateway/src/daemon-control.ts:75-82 | every pending request is settled with the reason, in order, and no timer stays armed |
| DaemonControls.DaemonControlRegistry.Size | apps/gateway/src/daemon-control.ts:40-42 | the registered less the settled |
| Readiness.TokensAreDistinct | plugins/dsh-gateway-agent/src/daemon.js:364-407 | in every interleaving wait tokens are pairwise distinct and never exceed startToken, so at most one wait is current |
| Readiness.TimeoutsAreCurrent | plugins/dsh-gateway-agent/src/daemon.js:442 | a superseded wait never reports the timeout |
| Readiness.SupersededWriteIff | plugins/dsh-gateway-agent/src/daemon.js:433-441 | a wait whose probe answers writes while superseded if and only if the token was bumped since its wake |
| Readiness.AtomicProbesAreSafe | plugins/dsh-gateway-agent/src/daemon.js:433-442 | if each probe answers in the step after its wake, no superseded wait with a probe writes any state, in any run |
| Readiness.WaitsEnd | plugins/dsh-gateway-agent/src/daemon.js:433-442 | every wait ends within READY_ATTEMPTS rounds |
| Readiness.StopCanBeOverruled | plugins/dsh-gateway-agent/src/daemon.js:433-441 | a run in which a finished stop is overwritten by the wait it superseded |
| Readiness.UnprobedScriptWrites | plugins/dsh-gateway-agent/src/daemon.js:429-432 | without a probe a start script that ends writes RUNNING, superseded if and only if a start or stop has taken a token since the script was launched |
| Readiness.LateScriptOverrules | plugins/dsh-gateway-agent/src/daemon.js:396-407 | a run in which a start script that ends after a stop overwrites it |
| OneChild.NoDuplicate | plugins/dsh-gateway-agent/src/daemon.js:355-363 | if starts are called only when no other start and no process is left, there is never more than one process, in any interleaving |
| OneChild.OneChildIff | plugins/dsh-gateway-agent/src/daemon.js:355-390 | in any reachable state the pending starts leave at most one process, however many are told that dsh is not up, if and only if starts and processes together are at most one |
| OneChild.StartsOverlap | plugins/dsh-gateway-agent/src/daemon.js:631-644 | two starts that overlap at their probe make two processes |
| SupervisorLives.WaitSettles | plugins/dsh-gateway-agent/src/daemon.js:424-444 | a readiness wait left alone writes RUNNING when the probe first answers, after however many rounds, and EXITED when 120 probes have gone unanswered; STARTING stands till then and nothing else is written |
| SupervisorLives.StartOfRunning | plugins/dsh-gateway-agent/src/daemon.js:347-363 | the start of a dsh that is up writes RUNNING and makes no process |
| SupervisorLives.StartRefused | plugins/dsh-gateway-agent/src/daemon.js:348-354 | a start while supervision is off, or of a child that is alive, writes no state, makes no process and goes no further |
| SupervisorLives.StartOfChild | plugins/dsh-gateway-agent/src/daemon.js:364-394 | the start of one that is down writes STARTING, makes one process and waits for it with the current token |
| SupervisorLives.StartByScript | plugins/dsh-gateway-agent/src/daemon.js:396-408 | STARTING while the script runs, then EXITED if it fails, else a wait, or RUNNING without a probe |
| SupervisorLives.StartWithoutCommand | plugins/dsh-gateway-agent/src/daemon.js:364-397 | a start of a dsh that is down leaves STARTING with nothing under way to settle it if and only if there is no command to run |
| SupervisorLives.StopOfChild | plugins/dsh-gateway-agent/src/daemon.js:447-490 | STARTING, then STOPPED, by SIGTERM or SIGKILL; the exit it brings about is not reported |
| SupervisorLives.StopWithoutChild | plugins/dsh-gateway-agent/src/daemon.js:472-490 | without a child the script is run and then STOPPED written; without a script at once |
| SupervisorLives.ExitIsReported | plugins/dsh-gateway-agent/src/daemon.js:505-513 | in every run a child that exits leaves EXITED, unless a stop still under way has asked it to |
| SupervisorLives.BeginsQuiet | plugins/dsh-gateway-agent/src/daemon.js:355-390 | a supervisor begins with nothing under way, no child, and no state to report |
| SupervisorLives.OthersGoOn | plugins/dsh-gateway-agent/src/daemon.js:396-444 | what happens to one wait or script leaves every other one as it is |
| SupervisorLives.ScriptOutlived | plugins/dsh-gateway-agent/src/daemon.js:425-431 | without a probe a script that ends after the settings have gone over to a managed child reports RUNNING only if a child lives |
| SupervisorLives.InsistIsOfStop | plugins/dsh-gateway-agent/src/daemon.js:464-471 | SIGKILL changes no child but a living one a stop is waiting for |
| Supervisors.Supervisor.Start | plugins/dsh-gateway-agent/src/daemon.js:347-360 | start up to its probe: nothing more if switched off or a child runs; no token is taken |
| Supervisors.Supervisor.StartAfterProbe | plugins/dsh-gateway-agent/src/daemon.js:360-400 | start after its probe: RUNNING if up, else a new token and STARTING, then child, script or neither; the token rules hold |
| Supervisors.Supervisor.StartAfterScript | plugins/dsh-gateway-agent/src/daemon.js:396-408 | a failed script writes EXITED, another arms the wait with the start's own token; the token rules hold |
| Supervisors.Supervisor.WaitAfterSleep | plugins/dsh-gateway-agent/src/daemon.js:434-436 | a wake ends a superseded or childless wait, else probes; the token rules hold |
| Supervisors.Supervisor.WaitAfterProbe | plugins/dsh-gateway-agent/src/daemon.js:437-442 | an answer writes RUNNING, goes round again, or gives up with EXITED if current; the token rules hold |
| Supervisors.Supervisor.Stop | plugins/dsh-gateway-agent/src/daemon.js:447-484 | stop up to its await: a new token, STARTING, then kill, script or the end at once; the token rules hold |
| Supervisors.Supervisor.StopAfterPatience | plugins/dsh-gateway-agent/src/daemon.js:464-471 | SIGKILL marks a child killed that SIGTERM could not reach |
| Supervisors.Supervisor.StopAfterKill | plugins/dsh-gateway-agent/src/daemon.js:472-490 | the stop of a child ends with STOPPED whatever has happened since |
| Supervisors.Supervisor.StopAfterAwait | plugins/dsh-gateway-agent/src/daemon.js:486-490 | the stop by script ends with STOPPED whatever has happened since |
| Supervisors.Supervisor.OnChildExit | plugins/dsh-gateway-agent/src/daemon.js:505-513 | the child is gone; EXITED unless a stop asked for it |
| SplitCommands.SplitCommand | plugins/dsh-gateway-agent/src/daemon.js:122-145 | the loop computes the split the lemmas below characterise |
| SplitCommands.SplitUndoesQuoting | plugins/dsh-gateway-agent/src/daemon.js:122-145 | arguments wrapped in a quote each lacks and joined with spaces split back to the non-empty ones; to all of them if and only if none is empty |
| SplitCommands.SplitConserves | plugins/dsh-gateway-agent/src/daemon.js:122-145 | for every command the arguments put together are the command without active quotes and unquoted whitespace, and none is empty |
| SplitCommands.SplitsAtSpace | plugins/dsh-gateway-agent/src/daemon.js:136-140 | unquoted whitespace splits: the arguments of the parts, one after the other |
| SplitCommands.SplitsOnlyAtSpace | plugins/dsh-gateway-agent/src/daemon.js:126-143 | without unquoted whitespace there is one argument, or none if nothing stays |
| SplitCommands.Separators | plugins/dsh-gateway-agent/src/daemon.js:129-136 | what separates is what \s matches (sections 12.2 and 12.3 of ECMA-262), and what quotes are the two ASCII quotes |
| AuditCsv.CsvReadsBack | apps/gateway/src/control.ts:59-88 | a reader by rules 5 to 7 of section 2 of RFC 4180, LF as the break, recovers the header, and under each of its names every row's own attribute of that name, for all strings |
| AuditCsv.ReadsField | apps/gateway/src/control.ts:59-62 | a printed field before a comma or break reads as that field: quotes, commas, CR and LF included |
| AuditCsv.HeaderIsALine | apps/gateway/src/control.ts:79 | the header is printed as a line of those six names would be |
| AuditStores.StreamAuditCsv | apps/gateway/src/control.ts:74-88 | pages put together are a front part of the final result that holds the whole snapshot taken at the start, each row once and in order; without arrivals exactly the whole query; it ends |
| AuditStores.ExportReadsBack | apps/gateway/src/control.ts:74-88 | reading an export back gives the header and the records of the snapshot first |
| AuditModel.AllExtends | packages/store/src/memory.ts:92-108 | rows appended no earlier than any stored one extend every query's result at its end |
| AuditModel.QueryAnswers | packages/store/src/memory.ts:92-108 | a query without a limit answers every row within its bounds and with its values, as often as stored, and no other, in time order; with one, that many of these from the offset on |
| AuditModel.SortIsStable | packages/store/src/memory.ts:105 | time order, and within one instant the stored order, nothing lost or made up |
| AuditModel.StableSortIsUnique | packages/store/src/memory.ts:105 | only one order has that property |
| AuditStores.InMemoryStore.PurgeAudit | packages/store/src/memory.ts:110-122 | deletes the first older rows stored, at most the limit, keeps all others in order, and returns the count |
| AuditStores.AuditRetention.PurgeNow | apps/gateway/src/audit-retention.ts:66-83 | removes min(n, 10000 batches) rows, the first such rows in stored order, in effect in one go, with newer rows arriving between batches; refuses while switched off or running |
| AuditStores.BatchedIsOneShot | apps/gateway/src/audit-retention.ts:66-83 | when the batches suffice, what remains is what one unlimited purge would leave |
| AuditModel.SurvivorsAreACut | packages/store/src/memory.ts:110-122 | a purge of n takes the older rows of a front part and nothing else |
| AuditModel.SurvivorsCompose | apps/gateway/src/audit-retention.ts:72-76 | deleting in two goes is deleting once |
| AuditModel.PurgeIsOfOlder | packages/store/src/memory.ts:110-122 | only rows from before the given time are ever purged, and an unlimited purge leaves none of them |
| AuditModel.PurgeTakesOldestIff | packages/store/src/IStore.ts:58-63 | every row a purge of at most n takes is no later than every older row it leaves if and only if, in stored order, the older rows within the limit are no later than those beyond it |
| AuditModel.EverySizeTakesOldestIff | packages/store/src/IStore.ts:58-63 | purges of every size take the oldest if and only if the older rows are stored in time order |
| AuditModel.InOrderTakesOldest | packages/store/src/memory.ts:88-90 | rows appended with a clock that never steps back are purged oldest first |
| AuditModel.SteppedBackClock | packages/store/src/memory.ts:110-122 | rows stored with a clock that stepped back by a second: a purge of one takes the later row and leaves the earlier |
| Sessions.NoUseBeyondTheLimits | apps/gateway/src/auth.ts:104-147 | in every run, a read that answers comes within the absolute limit of the creation and the idle limit of the last touch, after no destruction, and answers for that session's own user or machine |
| Sessions.ReadsAreAnswered | apps/gateway/src/auth.ts:104-149 | the converse: in every run a session in the table answers with its own user, or the machine bound to it last, exactly while the instant is within both limits, and after that is gone |
| Sessions.OnlyExpiredAreSwept | apps/gateway/src/auth.ts:168-178 | a sweep, in any run, leaves exactly the sessions within both limits |
| Sessions.ExpiredGoFirst | apps/gateway/src/auth.ts:156-167 | an eviction of a table too large leaves no expired session |
| Sessions.LostOnlyWithCause | apps/gateway/src/auth.ts:93-179 | an unexpired session survives every step but its own destruction or replacement, or an eviction that leaves a full table of sessions issued no earlier |
| Sessions.NewSessionIsThere | apps/gateway/src/auth.ts:96-102 | after a creation under a fresh id the table is within its bound, the new session is in it and answers for its user |
| Sessions.TableIsBounded | apps/gateway/src/auth.ts:156-167 | in every run the table stays within SESSION_MAX, with one record an id |
| SessionModel.EvictOf | apps/gateway/src/auth.ts:156-167 | after an eviction the bound holds, nothing was added, and any unexpired session that went was issued no later than every survivor |
| SessionModel.NewestSurvives | apps/gateway/src/auth.ts:156-167 | the session just added survives, even among others issued at the same instant |
| Sessions.SessionStore.Create | apps/gateway/src/auth.ts:96-102 | adds the session and evicts; the bound holds |
| Sessions.SessionStore.GetUser | apps/gateway/src/auth.ts:108-118 | renews and answers, or deletes an expired one |
| Sessions.SessionStore.BindMachine | apps/gateway/src/auth.ts:131-137 | binds and renews without asking whether the session has expired |
| Sessions.SessionStore.BoundMachine | apps/gateway/src/auth.ts:140-149 | answers without renewing, or deletes an expired one |
| Sessions.SessionStore.EvictSessions | apps/gateway/src/auth.ts:156-167 | expired ones first, then the oldest by issue, down to the bound |
| Sessions.SessionStore.DeleteExpired | apps/gateway/src/auth.ts:158-160 | one pass that deletes as it goes leaves exactly the unexpired, in order |

## Left out

- Sockets, HTTP, Fastify, SQLite, files, processes, shells: their effects are logs and events; storage is the in-memory store.
- Hashing, key derivation, cookies and signatures: a session id is a parameter, fresh where a theorem says so.
- Awaits inside one throttle or store operation: an operation runs to completion before the next. Interleaving between a login's check and its outcome is modelled.
- `DELETE` of throttle rows by an administrator (apps/gateway/src/control.ts:229), which changes the rows behind the throttle's back.
- Machine rows and onboarding codes: their handlers interleave at awaits, and two onboardings racing on one socket are not modelled; a socket has one identity.
- EndToEnd.RelayedExactlyOnce: channel ids of 2^32 and above, and ids reused by a later gateway process.
- TunnelBack.TunnelAnswered: pieces handed to a browser socket that has begun to close but is not closed yet, which drops them.
- AnsweredWhole.AnsweredExactlyOnce: a local connection that breaks after its head (`ResponseWriter.LateFailureHeadsTwice` says what that asks for; what the runtime does with a second head is not modelled); local chunks are shorter than 2^32 bytes.
- NodeRegistries.NodeRegistry.Heartbeat: the daemon and version fields a heartbeat copies into the entry, and its write to the store.
- AgentConnections.Connection.HandleWsOpen: the operator's cookie added to the headers, as to those of a forwarded request.
- The agent's own socket failures: an agent run is one connection.
- ResponseWriter.HeldPage: header values are single strings, and lower-casing is of ASCII letters only.
- Contents of the mobile layer's CSS and JS: the layer is a parameter, and idempotence asks that it hold its marker.
- AuditModel.SortIsStable: strings are compared by Unicode scalar value, which differs from UTF-16 units only between U+E000 and U+FFFF on one side and supplementary characters on the other.
- JSONL export, and ties between equal timestamps in SQLite's paging.
- Sessions.TableIsBounded: SESSION_MAX and the time limits are whole numbers; the settings also allow fractions.
- Supervisors.Supervisor.Stop: that a restart's start comes after its stop; a restart is any stop followed by a start.
- The text of settings: which scripts are blank, and whether a child command splits to nothing, are facts of the settings on disk after placeholders are filled in.
- Empty machine ids, which the gateway treats as absent.
- User and role routes, the updater, back-off helpers, header rewriting and the portal: short branches only.
