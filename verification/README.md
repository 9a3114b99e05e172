# Verified model of Xuanwu's panel and node agents

Xuanwu is a panel that provisions VLESS users onto nodes, and an agent on each
node that runs Xray. The bookkeeping between the two is distributed: bytes are
counted on a node and credited in the panel, user sets are computed in the panel
and must be what Xray really serves. This project models that bookkeeping in
Dafny and proves what it promises.

`dafny verify dfyconfig.toml` checks the whole project.

## How it is organised

Protocols are step systems: a state, a type of events, a total function `Next`
(an event that is not possible leaves the state unchanged) and `Run` over a
sequence of events. A theorem about `Run` is therefore about every run. Objects
the source updates in place are classes whose methods are proved against the
functions those theorems are about, and state their effect column by column besides.
A theorem that a system in which nothing happens would satisfy too is paired with one
that reaches it: everything settles, every byte arrives, every agent can catch up.

| part | files |
|---|---|
| traffic buffer, accounting protocol, tables and ledgers, ingestion | `Traffic`, `Pending`, `TrafficProtocol`, `Store`, `Panel`, `Ingest`, `Accounting` |
| Xray's counters to per-user items | `Stats` |
| node configuration, client split, live edits, durable baseline | `NodeConf`, `ClientSplit`, `Skeleton`, `ApplyProtocol`, `Agent`, `Provisioning` |
| signatures, push cache, hub and its connections | `Signature`, `PushCache`, `Hub`, `HubLifecycle` |
| panel, connection and agent together | `Delivery` |
| access-log tailer | `Tailer` |
| monthly resets, login limiter, session tokens | `MonthlyReset`, `Limiter`, `Session` |
| shared text, ordering and option types | `Text`, `Ordering`, `Wrappers` |

## Assumptions

- Store calls and file writes succeed, and one ingest or one sync is one step. Saving
  a node's settings and the forced sync that follows are two steps, and so are the
  question a login attempt asks first and its settlement.
- Traffic frames on one connection arrive in order, and registering a new
  connection discards what is left of the old one. Acks may be lost, repeated,
  reordered or late without limit. `StaleFrameCountsTwice` shows what a frame of
  an old connection would do if it were still read.
- `docker restart` succeeds in the runs of `BaselineDescribesXray`;
  `FailedRestartExact` says exactly when a failure leaves a wrong baseline.
- SHA-256 is injective: a hash is modelled by what was hashed.
- The keyed hash of a session token is a parameter that never prints `|`.
- The log's line pattern and timestamp parser are parameters.
- Log rotation gives the log a new inode number that it has not had before.

## Findings

These promises of the source hold only under a condition that its code does not
check. In each case the code is modelled as it is, and both how the promise breaks
and exactly when it holds are proved.

- A durable baseline whose hash matches the configuration file need not describe
  the running Xray (`internal/agent/baseline.go:18-22` says it does): after two
  interrupted applies that return to the recorded document, Xray still runs the
  other one (`TwoCrashesDeceive`, `BuiltConfigsDeceive`). An apply is safe to interrupt exactly when the
  agent holds a baseline or the durable one is for a different document
  (`GuardExact`); with that, the promise holds in every run
  (`BaselineDescribesXray`).
- A restart that fails leaves a right baseline exactly when the old and the new
  document parse alike, or Xray has not reloaded the file by itself and none of the
  calls made before edited anything. Otherwise pushing the baseline's own
  configuration again is reported as applied live, edits nothing, and leaves Xray
  serving other users (`FailedRestartExact`).
- A configuration without an inbound list restarts Xray but leaves the old
  baseline in force (`SplitExact`). Configurations built by the panel always
  have one.
- The log tailer reads everything exactly once if and only if what a collect finds
  unread ends with a whole line and no line ends in a carriage return
  (`ReadingExact`, over lines below 1 MiB). A half-written line whose rest arrives
  before the next collect is read as two fragments without the character between
  them (`HalfLineSplits`); if the file has not changed, the whole of it is read
  again (`HalfLineRereads`). Lines of any length are all read if and only if each is
  below 1 MiB (`LongLinesExact`); a longer one stops the tailer (`LongLineStalls`)
  until the log is rotated (`RotationResumes`). A truncation in place is noticed exactly when the position
  was at the start or is beyond the new end (`TruncationExact`), and one found
  empty is forgotten by a restart (`EmptyTruncationForgotten`).
- A login window lets through up to `max` failures only when attempts for a key do
  not overlap (`WindowsBounded`); with up to `k` under way at once the bound is
  `max + k - 1` (`OverlapBounded`), and it is reached (`BoundReached`).

An agent that lost its buffer restarts at batch 1. Its first batch is dropped as
a duplicate exactly when the panel last applied number 1 (`RebaselineExact`).

## Model

| member | source | states |
|---|---|---|
| Pending.PendingTraffic.constructor | internal/agent/pending.go:36-49 | a buffer restored from its file is the buffer that was saved, every entry with a counter object of its own |
| Pending.PendingTraffic.Save | internal/agent/pending.go:52-65 | the file becomes the whole buffer, or nothing changes without a path |
| Pending.PendingTraffic.Collect | internal/agent/pending.go:83-91 | the items are added to the pending amounts, the batch in flight keeps its contents although both maps hold pointers, and the file follows |
| Pending.PendingTraffic.MergeOne | internal/agent/pending.go:67-80 | one item is added through its pointer, creating the entry if needed, and no counter is ever shared between the two maps |
| Pending.PendingTraffic.Batch | internal/agent/pending.go:96-114 | a batch in flight is returned again under its number; otherwise everything pending becomes the batch in flight under the next number, whole, and nothing is left pending; the items list the batch exactly once, in any order |
| Pending.PendingTraffic.Ack | internal/agent/pending.go:117-125 | the ack of the batch in flight leaves nothing in flight and everything else as it was; any other number changes nothing |
| Pending.Restart | internal/agent/pending.go:36-65 | reloading from disk after any completed operation gives the same buffer |
| Traffic.MergeAdds | internal/agent/pending.go:67-80 | merging adds, per email and direction, exactly what the items report, zero items included |
| Traffic.ListingReports | internal/agent/pending.go:110-114 | a batch reports exactly the amounts it was made from, in whatever order the map was ranged over |
| TrafficProtocol.ExactlyOnce | internal/agent/pending.go:67-125 | in every run with lost frames, lost, late, repeated and reordered acks, reconnects and restarts of either side: bytes collected equal bytes credited plus ignored plus in flight unapplied plus pending, per email and direction, with the numbering invariants this rests on |
| TrafficProtocol.EqualityDedupSuffices | internal/panel/traffic.go:22-34 | from zero the panel's last number is the agent's or one less, equal when nothing is in flight, and queued frames are in order and never behind it |
| TrafficProtocol.AckOnlyClearsApplied | internal/agent/pending.go:116-125 | no ack ever clears a batch the panel has not applied |
| TrafficProtocol.QuiescentBooksBalance | internal/agent/pending.go:11-20 | with nothing in flight and nothing pending the panel's books hold everything ever collected |
| TrafficProtocol.RebaselineExact | internal/panel/traffic.go:22-34 | a lost buffer is recovered exactly once in every run if and only if the panel's last number is not 1 |
| TrafficProtocol.StaleFrameCountsTwice | internal/panel/hub.go:89-96 | a frame older than the last applied batch would be counted again, so registering must discard the old link |
| TrafficProtocol.ResendStable | internal/agent/pending.go:93-114 | from promotion to ack a batch keeps its number and contents whatever is collected, lost or restarted meanwhile |
| TrafficProtocol.RoundTripClears | internal/agent/pending.go:93-125 | from any state with a batch in flight, registering, sending, delivering and delivering the ack leaves nothing in flight, under the same number, with what was pending untouched |
| TrafficProtocol.RoundTripSends | internal/agent/pending.go:93-125 | from any state with nothing in flight, exactly what is pending goes out under the next number and is cleared by its ack |
| TrafficProtocol.EverythingSettles | internal/agent/pending.go:11-20 | nothing is ever stuck: every reachable state is at most two round trips away from one with nothing in flight or pending, where the books hold everything that had been collected |
| TrafficProtocol.CollectAdds | internal/agent/pending.go:83-91 | reading counters adds exactly what they report to what is pending and touches nothing in flight |
| TrafficProtocol.LostIsResent | internal/agent/pending.go:93-114 | a lost frame is sent again with its number and contents |
| TrafficProtocol.RestartResends | internal/agent/pending.go:36-49 | an agent that restarts resumes from its file and sends the batch in flight there first |
| TrafficProtocol.NothingSentUnlinked | internal/panel/hub.go:89-116 | once the link is lost at either end nothing is sent until the agent registers again |
| IngestSpec.IngestCredits | internal/panel/traffic.go:26-67 | an unknown node or repeated number changes nothing; otherwise each served user's usage, per-node and daily ledgers and the node's daily ledger move by exactly what the batch reports for it, the node's number is recorded, and everyone else's cells, of every user, node and day, stay |
| IngestSpec.IngestRefines | internal/panel/traffic.go:26-67 | ingesting into the tables is ingesting in the accounting protocol with the served usernames as the allowed set |
| Panel.AllowedUsers | internal/panel/traffic.go:40-43 | the index maps exactly the served usernames to their users |
| Panel.IngestTraffic | internal/panel/traffic.go:26-67 | the two loops compute the ingest that the theorems are about |
| Accounting.LedgerExactlyOnce | internal/panel/traffic.go:26-67 | in every run of the protocol against the real tables, with resets, edits, reassignments, other nodes' reports, and users and nodes that come and go, the reporting node included: for every user that exists at the end, whenever it was created, if nobody else bore its name in the run, what was collected under it is what its ledger for the node gained or had erased, plus what was ignored while it was not assigned, plus what is in flight or pending |
| Accounting.EveryByteArrives | internal/panel/traffic.go:26-67 | whatever has happened so far, at most two round trips later nothing collected under a user's name is on the way: it is in the user's ledger, was erased from it or was ignored, and none of what was on the way is ignored if the node serves the user now |
| Accounting.ResetErases | internal/panel/store.go:1091-1106 | a reset takes out of a ledger exactly what it held |
| Accounting.AssignedIsServed | internal/panel/store.go:996-1013 | a node serves a user from its assignment on, and only then |
| Accounting.ServedNeverIgnored | internal/panel/traffic.go:40-53 | from any point of such a run at which the node serves a user, and as long as the assignment stays, none of the user's bytes is ignored |
| Accounting.DeletedNodeIgnored | internal/panel/hub.go:154-158 | once the node is deleted, everything its agent still delivers is acked and ignored: nothing more is ever credited, and the books still add up |
| Stats.FoldCounts | internal/agent/stats.go:44-73 | each email's totals are the sums of exactly the counters `user>>>email>>>traffic>>>uplink` and `downlink` |
| Stats.StatsToItems | internal/agent/stats.go:44-73 | the returned items report those sums |
| Panel.Store.AddTraffic | internal/panel/store.go:1035-1064 | charges the user and adds to the per-node cell and to the cells of the UTC day that `now` falls on, and to no other cell or column |
| Panel.Store.ResetUserTraffic | internal/panel/store.go:1091-1106 | the aggregate and the per-node rows of one user are cleared, nothing else |
| Panel.Store.UpdateUser | internal/panel/store.go:718-728 | limit, expiry, enabled flag, reset day and note become the given ones; every other column and every other row stays |
| Panel.Store.DeleteUser | internal/panel/store.go:972-993 | assignments, per-node rows, device rows and the user go; daily history stays |
| Panel.Store.DeleteNode | internal/panel/store.go:576-600 | assignments, per-node and node-daily rows, device rows and the node go |
| Panel.Store.SetUserNodes | internal/panel/store.go:996-1013 | afterwards a pair is assigned if and only if it is the user with a given node, or another user's pair that was |
| Panel.Store.CreateUser | internal/panel/store.go:702-716 | fails exactly on a taken username or subscription token; otherwise the next identifier, never issued before, gets the given columns and zeroed counters |
| Panel.Store.CreateNode | internal/panel/store.go:555-566 | a new node gets the next identifier and has applied no batch |
| Panel.Store.SetUserUuid | internal/panel/store.go:740-746 | only that user's uuid changes |
| Panel.Store.BumpUserSessionEpoch | internal/panel/store.go:314-319 | only that user's epoch changes, by one |
| Panel.Store.UpsertDevice | internal/panel/store.go:393-401 | exactly one device row is present that may not have been |
| Activity.InactiveUntilRevived | internal/panel/models.go:41-52 | over any run of store operations with non-negative reports, and whatever time passes, an inactive user stays inactive until it is edited or its counters are reset |
| Activity.QuotaHolds | internal/panel/models.go:48-50 | the report that reaches a user's quota keeps it inactive, at any hour and through any later operations, until it is edited or reset |
| Activity.EditSwitchesOff | internal/panel/models.go:41-52 | an edit that clears the enabled flag keeps the user inactive at every hour and through any other operations until its next edit |
| Activity.ExpiryHolds | internal/panel/models.go:45-47 | from its expiry on a user stays inactive through any operations until its next edit |
| Ledgers.LedgersBalance | internal/panel/store.go:1035-1064 | over every run of store operations: usage is the per-node breakdown plus what went with deleted nodes, daily history is usage plus what resets cleared, and each day's user side is its node side plus what went with deleted nodes |
| Ledgers.LedgersCover | internal/panel/store.go:1089-1106 | so for non-negative reports usage covers the breakdown and never exceeds the history, each day's user side covers its node side, and with no node deleted the first and last are equal |
| Ledgers.StaleUpdateKeepsTraffic | internal/panel/store.go:718-728 | an edit form read before any amount of traffic and saved after it loses none of it |
| NodeConf.Build | internal/nodeconf/nodeconf.go:26-156 | the loop and the conditional TLS inbound produce the configuration the theorems are about |
| Skeleton.AgentCanWork | internal/nodeconf/nodeconf.go:35-156 | in every effective configuration the user and stats services are on and reachable on port 10085, counters are kept for all clients' level, and the access log is where the tailer reads it |
| Skeleton.TlsInboundIs | internal/nodeconf/nodeconf.go:53-84 | the TLS inbound: tag, port 10444, security and the clients given |
| Skeleton.RealityInboundIs | internal/nodeconf/nodeconf.go:85-110 | the REALITY inbound: tag, port 10443, security and the clients given |
| Skeleton.ClientJsonFields | internal/nodeconf/nodeconf.go:28-35 | each client entry carries its email, uuid, flow and level |
| Provisioning.TagsServedAre | internal/agent/xray.go:31-65 | the TLS inbound is served exactly with a domain and a certificate, the REALITY one always |
| ClientSplit.ParseClients | internal/agent/live_grpc.go:51-95 | the loops split any document into its skeleton and its client sets |
| ClientSplit.ClientsRead | internal/agent/live_grpc.go:75-87 | the clients read from any list are the named ones, each under the identifier of its last entry |
| ClientSplit.ClientsAllRead | internal/agent/live_grpc.go:75-87 | and no named entry is left out |
| ClientSplit.StripTlsIfNoCert | internal/agent/xray.go:31-65 | only TLS inbounds go, only when the certificate is missing |
| ClientSplit.OnlyTlsGoes | internal/agent/xray.go:31-65 | an inbound is dropped if and only if its tag is `vless-xtls-vision` |
| ClientSplit.SkeletonKeepsTags | internal/agent/live_grpc.go:48-95 | any two documents with equal skeletons have managed inbounds under the same tags |
| Skeleton.ParseRecovers | internal/agent/live_grpc.go:51-95 | from a built configuration the split recovers exactly the provisioned users on each inbound present, and a skeleton without a trace of them |
| Skeleton.UuidsExact | internal/agent/live_grpc.go:75-87 | distinct emails keep their own uuids and no other email appears |
| Skeleton.SkeletonSound | internal/nodeconf/nodeconf.go:26-156 | skeletons are equal exactly when REALITY settings are equal and the TLS inbound is in both or in neither |
| Skeleton.RealitySniFromConfig | internal/agent/nginx.go:141-161 | the loop returns the server name of the first REALITY inbound that has one |
| Skeleton.SniIsFirst | internal/agent/nginx.go:141-161 | that name is the first of the inbound's server names |
| Skeleton.SniFollowsSettings | internal/agent/nginx.go:139-161 | the SNI the agent routes by is the one set on the node |
| ApplyProtocol.BaselineDescribesXray | internal/agent/baseline.go:13-22 | from any file and any Xray without a recorded baseline, in every legal run mixing live edits, restarts, agent crashes at any point and Xray reloading by itself, a baseline held while idle, recorded or accepted from disk, describes the running Xray and the file |
| ApplyProtocol.AppliedIsRunning | internal/agent/xray.go:70-99 | an apply that has just finished, live or by a restart, leaves Xray running exactly the new configuration |
| ApplyProtocol.DeltaNeverErrs | internal/agent/live_grpc.go:116-142 | no call of the delta fails while only the agent edits Xray, in every order of pairs, remove-then-re-add included |
| ApplyProtocol.DeltaStartsUntouched | internal/agent/live_grpc.go:99-104 | every live apply starts where that holds, unless Xray reloaded the file in between |
| ApplyProtocol.FinishedMatches | internal/agent/live_grpc.go:116-148 | when no pair is left each tag's client map is the new one, reloads in the middle included |
| ApplyProtocol.UsersChangeLive | internal/agent/live_grpc.go:99-149 | an apply that changes users only, with no call lost and no reload, never reaches a restart whatever calls it makes in whatever order, can always be finished, and finishes recorded with Xray running exactly the new document |
| ApplyProtocol.RestartReaches | internal/agent/xray.go:87-98 | wherever a live attempt is given up, a restart that succeeds leaves Xray running the new file and, if the document can be split, a baseline for it |
| ApplyProtocol.TornNotTrusted | internal/agent/baseline.go:49-72 | a file torn by a crash is never trusted: the next apply restarts Xray |
| ApplyProtocol.GuardExact | internal/agent/baseline.go:49-72 | an apply can be interrupted after its write without a wrong baseline ever being trusted, whatever Xray runs, if and only if a baseline is held or the durable one is for another document |
| ApplyProtocol.TwoCrashesDeceive | internal/agent/baseline.go:18-22 | without that guard a run with two crashes ends in a trusted but wrong baseline |
| Provisioning.BuiltConfigsDeceive | internal/agent/baseline.go:18-22 | two edits of a node's REALITY destination and two crashes are such a run |
| ApplyProtocol.SplitExact | internal/agent/xray.go:83-97 | an apply that ends in a restart, at once or after a live attempt, leaves a right baseline if and only if the document has an inbound list |
| ApplyProtocol.FailedRestartExact | internal/agent/xray.go:87-92 | wherever Xray reloads the file by itself before, during or after a live attempt that is given up and a restart that fails: the kept baseline is right if and only if the two documents parse alike, or there was no reload and no call edited anything; applying the baseline's document again succeeds, edits nothing and is right only then |
| Agent.NodeAgent.Seed | internal/agent/baseline.go:49-72 | the durable baseline is taken exactly when its hash matches the file |
| Agent.NodeAgent.AddOrChange | internal/agent/live_grpc.go:119-133 | a user of the new set ends under its new uuid, with no call at all if it had it before |
| Agent.NodeAgent.RemoveIfGone | internal/agent/live_grpc.go:134-141 | a user of the old set is removed exactly if the new set does not have it |
| Agent.NodeAgent.AddAndChange | internal/agent/live_grpc.go:119-133 | in any iteration order, from the old set, additions and changes leave the new uuids on every email of the new set; a failure means a call was lost; no call is made for a user that stays as it was |
| Agent.NodeAgent.RemoveGone | internal/agent/live_grpc.go:134-141 | in any iteration order, after the additions, exactly the emails that are gone are removed, and no call is made for any other; a failure means a call was lost |
| Agent.NodeAgent.LiveApply | internal/agent/live_grpc.go:99-149 | success puts baseline and durable copy on the new configuration, failure leaves them alone; from a baseline that describes Xray, success leaves Xray running it and failure happens only for another skeleton or a lost call |
| Agent.NodeAgent.ApplyConfig | internal/agent/xray.go:70-99 | may be called in every state an apply leaves, failed restarts included; from a baseline that describes Xray, a change of users only with no call lost succeeds without any restart and calls Xray only about users on whom the two client sets differ; nothing else is ever applied live: any other document makes no call and restarts Xray exactly once; success leaves Xray running the written file and, if the document can be split, a baseline that describes it; failure keeps the baseline |
| Provisioning.SameSettingsUsersOnly | internal/agent/live_grpc.go:99-104 | a push with the same settings and certificate is such a change of users only, whoever the users are |
| Provisioning.LoadServes | internal/panel/config.go:11-27 | a node that runs a pushed configuration serves, on every VLESS inbound present, exactly the users that are enabled, unexpired and under quota, with their uuids |
| Provisioning.BuildXrayConfig | internal/panel/config.go:11-27 | the configuration is built from exactly the active users |
| Provisioning.PushAndApply | internal/agent/agent.go:248-253 | from the tables to the node: a push that is applied leaves the node serving exactly the users that the tables assign to it and that are active, with their current uuids |
| Signature.ComputeSignature | internal/panel/traffic.go:127-138 | the loop computes the signature the theorems are about |
| Signature.SignatureCanonical | internal/panel/traffic.go:125-138 | signatures are equal if and only if the lists hold the same active (username, uuid) pairs with multiplicity, in any order |
| Signature.SignatureIdentifiesSet | internal/panel/traffic.go:125-138 | with unique usernames they are equal if and only if the sets are |
| Signature.ValidIsPrintable | internal/panel/validate.go:18-20 | the username rule and the uuid alphabet keep the delimiters of signatures, tokens and counter names out |
| PushCache.CacheCoherent | internal/panel/traffic.go:140-187 | in every reachable state, if an existing node is online past its connect-time sync, has no saved settings still to be pushed and has a cached signature, the last configuration queued on its connection was built from its current settings and an active set with that signature |
| PushCache.SyncLeavesUpToDate | internal/panel/traffic.go:147-165 | a sync with queue room, whether it pushes or skips, leaves as last queued configuration the current settings and exactly the users active now |
| PushCache.UnchangedIsSkipped | internal/panel/traffic.go:155-157 | a sync of a settled node whose last configuration holds exactly the users active now queues nothing |
| PushCache.TickLeavesUpToDate | internal/panel/traffic.go:191-206 | an enforcement tick, in whatever order it takes the nodes, does so for every online node with queue room and no saved settings still to be pushed |
| PushCache.TickNames | internal/panel/traffic.go:191-206 | after a tick a user is on the configuration last queued if and only if it is assigned, enabled, unexpired and under its quota, column by column |
| PushCache.TimePasses | internal/panel/models.go:45-47 | the same after any change of the clock: a user drops off at the first tick from its expiry on |
| PushCache.NewUserArrives | internal/panel/validate.go:18-20 | any user with an acceptable name that is created and assigned is on the node's configuration from the next tick on |
| PushCache.SwitchedOffIsGone | internal/panel/models.go:42-44 | after an edit that switches a user off, no later tick leaves it on a settled node's configuration until it is edited again, whatever comes in between |
| PushCache.ExpiredIsGone | internal/panel/models.go:45-47 | the same from a user's expiry on |
| PushCache.SettingsArrive | internal/panel/traffic.go:167-187 | a forced sync with queue room does so from any state; and once one has been attempted, delivered or not, every later tick does so until settings are saved again |
| PushCache.SavedAreSent | internal/panel/traffic.go:167-187 | the forced sync after saving sends exactly the saved settings with the users active now |
| PushCache.ConnectSends | internal/panel/hub.go:73-82 | a node that connects is sent its configuration first, whatever was sent or cached before, and a sync then sends nothing more |
| PushCache.RestartReconnects | internal/panel/hub.go:73-82 | a panel that restarts has lost connections and cache only, and sends a reconnecting node its configuration anew |
| PushCache.DrainMakesRoom | internal/panel/hub.go:77 | a queue of eight drops what is pushed, and takes it again once one message has been written |
| PushCache.ReportEnforced | internal/panel/traffic.go:26-67 | a report that takes a user to its quota is followed at once by a configuration without that user |
| PushCache.TickIsServed | internal/panel/traffic.go:191-206 | from end to end, over every run of the panel and every legal run of an agent: an idle agent holding what was last queued for it when a tick passed serves, on every VLESS inbound present, exactly the users that the tables assigned to the node and that were active at that tick |
| Delivery.LastQueuedIsRunning | internal/agent/agent.go:240-259 | in every legal run of panel and agent joined by the node's connection, with reconnects, full queues, crashes, restarts of either side and live edits: an idle agent that has read everything queued holds exactly the configuration last queued, and Xray runs it |
| Delivery.TickReachesXray | internal/panel/traffic.go:191-206 | so once the agent has read and applied what was queued at an enforcement tick, Xray serves, on every VLESS inbound present, exactly the users that the tables assigned to the node and that were active at that tick |
| Delivery.CanCatchUp | internal/agent/agent.go:240-259 | from any state with the agent idle, one reconnection leaves it caught up, with Xray serving exactly the users assigned to the node and active now |
| PushCache.ForgettingIsNeeded | internal/panel/traffic.go:176-183 | keeping the signature after a failed forced push would make a stale node look current |
| Hub.NodeConn.Close | internal/panel/hub.go:111-116 | a connection is closed at most once |
| Hub.NodeConn.TrySend | internal/panel/hub.go:168-180 | a message is queued exactly when the connection is open and fewer than eight are waiting |
| Hub.NodeConn.TakeNext | internal/panel/hub.go:118-132 | messages are written in the order they were queued |
| Hub.NodeHub.Register | internal/panel/hub.go:89-96 | the newest connection replaces and closes the previous one |
| Hub.NodeHub.Unregister | internal/panel/hub.go:98-109 | only the current connection is removed from the map, which is the model's disconnection; either way it is closed once |
| Hub.NodeHub.PushConfig | internal/panel/hub.go:184-205 | the current configuration is queued on the node's connection, and true is returned exactly then |
| Hub.NodeHub.SyncNode | internal/panel/traffic.go:147-165 | computes the sync of the push-cache model on live connections |
| Hub.NodeHub.ForceSyncNode | internal/panel/traffic.go:170-187 | computes the forced sync of that model, forgetting the signature on failure |
| Hub.NodeHub.EnforcementTick | internal/panel/traffic.go:199-202 | syncs every online node once, in any order |
| Hub.NodeHub.HandleConnect | internal/panel/hub.go:77-82 | a new connection is registered and force-synced as in the model |
| Hub.NodeHub.SendAck | internal/panel/hub.go:154-158 | the ack goes to the connection the batch came in by, and is dropped if that has been replaced or is full |
| HubLifecycle.LifecycleSafe | internal/panel/hub.go:89-116 | under every interleaving of the locked and unlocked halves, a mapped connection is never closed and every connection that has left or been replaced is; closing twice is excluded by the once-only close, which is taken as given |
| HubLifecycle.SuccessorStays | internal/panel/hub.go:98-109 | a registered connection stays mapped and open until it leaves itself or a newer one registers |
| HubLifecycle.PushReachesLiveOnly | internal/panel/hub.go:165-190 | a push that reaches a queue reaches the current connection or one already leaving |
| HubLifecycle.ComesAndGoes | internal/panel/hub.go:73-116 | from any point of any run a connection can register, closing the one before it, be reached by a push, leave and be closed exactly once, out of every pusher's reach |
| TailerSpec.ConnsAreHits | internal/agent/devices.go:168-195 | a device's reported connections are its matching lines |
| TailerSpec.LastSeenLatest | internal/agent/devices.go:96-108 | a device is dated by the stamp of its latest line and never ahead of the clock; an unreadable or future stamp dates it now |
| TailerSpec.KindIsLast | internal/agent/devices.go:168-195 | a device is reported under the kind of its last line |
| TailerSpec.HitExactly | internal/agent/devices.go:168-183 | a line counts for a device exactly when it is recognised with that key, of a user that is named |
| TailerSpec.OffsetExact | internal/agent/devices.go:166-194 | how far a collect moves over any text of short lines, half-written lines and carriage returns included |
| TailerSpec.ReadingExact | internal/agent/devices.go:125-206 | over any unread text of short lines, a collect and the next one read what a single one would, whatever is written in between, if and only if the text ends with a whole line and no line ends in a carriage return |
| TailerSpec.HalfLineSplits | internal/agent/devices.go:166-197 | a half-written line whose rest arrives before the next collect is read as two fragments, with the character between them lost |
| TailerSpec.HalfLineRereads | internal/agent/devices.go:148-153 | after a half-written last line, a collect that finds the file unchanged reads the whole file again |
| TailerSpec.CarriageReturnLags | internal/agent/devices.go:164-194 | a line ended by carriage return and newline is read without either and leaves the position one short of the file's end |
| TailerSpec.LongLineStalls | internal/agent/devices.go:164-168 | a first unread line of 1 MiB or more is not passed on this file, however it grows |
| TailerSpec.LongLinesExact | internal/agent/devices.go:164-168 | whole lines of any length are all read if and only if each is below 1 MiB |
| TailerRuns.TailerExactlyOnce | internal/agent/devices.go:125-206 | over every run of appends of any text, rotations, truncations in place, collects and reloads in which each collect finds whole lines and no outgrown truncation: the position is a line boundary, and reported connections plus lines lost unread plus unread lines are the matching lines written since the seed |
| TailerRuns.CollectCatchesUp | internal/agent/devices.go:125-206 | after a collect nothing is left unread |
| TailerRuns.AppendGrows | internal/agent/devices.go:125-206 | the lines and the half-written rest that a run keeps are the bytes of the file, whatever text is appended |
| TailerRuns.StartsAnew | internal/agent/devices.go:146-151 | after a rotation the log is a new file, after a truncation the same one, holding only what is written from then on, and the lines not read before are lost |
| TailerRuns.RestartReadsOn | internal/agent/devices.go:48-60 | an agent that restarts reads on from the saved position, and without one from the end of file its next collect finds |
| TailerRuns.RotationResumes | internal/agent/devices.go:146-148 | a new file is read from its start, wherever the position was |
| TailerRuns.TruncationExact | internal/agent/devices.go:149-151 | a file cut back and written again in place is read as written if and only if the position was at its start or is beyond its new end |
| TailerRuns.EmptyTruncationForgotten | internal/agent/devices.go:149-154 | a truncated file found empty restarts the position in memory only: after a reload the old position skips into what was written since |
| TailerWatcher.AccessWatcher.constructor | internal/agent/devices.go:48-60 | a saved position is picked up, otherwise none is established |
| TailerWatcher.AccessWatcher.Collect | internal/agent/devices.go:125-206 | the scan loop moves, saves and reports as the model says |
| Calendar.LastDayIsLength | internal/panel/traffic.go:214-215 | the day before the first of the next month gives the month's length |
| Calendar.MonthStartIs | internal/panel/traffic.go:214-215 | months start where the Gregorian calendar has them, for every year and with its leap years |
| MonthlyReset.InstantInMonth | internal/panel/traffic.go:216-220 | the clamped reset instant lies within its month |
| MonthlyReset.InstantIsResetDay | internal/panel/traffic.go:214-220 | the reset instant is midnight of the reset day in that month, or of the last day of a shorter month |
| MonthlyReset.ResetCount | internal/panel/traffic.go:207-225 | over any run of checks with a clock that never goes back, resets are the distinct months containing a check at or after the reset instant that lies after the last earlier reset |
| MonthlyReset.ResetOncePerMonth | internal/panel/traffic.go:207-250 | over any run of checks on the panel's tables with every other operation in between and a clock that never goes back, a user that is not edited is reset exactly once for each month with a check at or after its reset instant, if that lies after the user's last earlier reset |
| MonthlyReset.MonthsReset | internal/panel/traffic.go:210-224 | a month counts exactly if some check in it comes at or after midnight of the reset day, or of the last day of a shorter month, and that midnight is later than the last earlier reset |
| MonthlyReset.DayInMonth | internal/panel/store.go:1052 | the UTC day of a time lies in that time's month |
| MonthlyReset.DisabledNeverResets | internal/panel/traffic.go:211-213 | a reset day below one never resets |
| MonthlyReset.AutoReset | internal/panel/traffic.go:229-250 | one check empties the usage and stamps the time of exactly the due users, deletes exactly their per-node rows, and leaves every other row and table alone |
| Limiter.ForgettingUnobservable | internal/panel/auth.go:189-229 | for every sequence of calls at non-decreasing times the limiter answers as a reference that never forgets |
| Limiter.OverlapBounded | internal/panel/api.go:36-60 | asking first and settling later, with at most `k` attempts for a key under way at once: each window lets through at most `max + k - 1` failures, all within its length, and the next one starts only after it ran out or a success closed it |
| Limiter.BoundReached | internal/panel/api.go:36-60 | for every `max` and `k` from 1 some run reaches that bound |
| Limiter.WindowsBounded | internal/panel/auth.go:170-223 | when attempts for a key do not overlap, each window lets through at most `max` failures, one if `max` is smaller |
| Limiter.LetThrough | internal/panel/api.go:36-39 | an attempt is let through exactly when neither its address nor its name has `max` failures in a running window |
| Limiter.Settling | internal/panel/api.go:40-62 | a failure counts once against the address and the name, a success forgets both, and a missing code counts for neither |
| LoginLimiter.Limiter.Blocked | internal/panel/auth.go:189-201 | true exactly when the key has `max` failures in a window still running; an expired entry is dropped |
| LoginLimiter.Limiter.Fail | internal/panel/auth.go:204-222 | the key's running count grows by one or a new window starts with one; above 4096 entries exactly the expired others go, otherwise none |
| Text.SplitJoin | internal/panel/auth.go:44-47 | splitting undoes joining when no part holds the separator's first character |
| Text.JoinSplit | internal/panel/auth.go:44-47 | joining undoes splitting, for every string |
| Text.ParseFormat | internal/panel/auth.go:52-57 | an integer survives being printed and parsed if and only if it fits 64 bits |
| Text.DigitsInOrder | internal/panel/auth.go:31 | numbers are printed in the digits 0 to 9 |
| Session.VerifySign | internal/panel/auth.go:29-61 | verifying undoes signing until the token expires |
| Session.PayloadInjective | internal/panel/auth.go:31 | what is signed determines role, subject, epoch and expiry |
| Session.AcceptedIsSigned | internal/panel/auth.go:39-61 | an accepted token carries the keyed hash of exactly what it is accepted for |
| Session.PortalDecides | internal/panel/portal.go:24-42 | a portal token is accepted exactly until it expires and while its account exists at its epoch |
| Session.AcceptedIsUser | internal/panel/portal.go:24-42 | whatever the portal accepts is a token signed for role "user", for that user at its current epoch, and unexpired |
| Session.RevokedForGood | internal/panel/store.go:314-319 | a portal token minted on any table is accepted after any later store operations if and only if it has not expired and none of them bumped its user's epoch or deleted the user |

## Left out

- Integer width: byte counters, batch numbers and times are unbounded integers; reaching 2^63 bytes is not modelled.
- A panel crash between crediting a batch and recording its number, and store errors, which are acked as if the batch had been applied.
- An agent crash between reading Xray's counters and saving the buffer: those counters are gone before the agent holds them durably.
- Two ingests or two syncs of the same node interleaving.
- Accounting.LedgerExactlyOnce: asks that nobody else bore the user's name in the run, because books and frames know users by name only and a deleted user's name may be given to another one.
- TailerRuns.TailerExactlyOnce: asks of each run what ReadingExact and TruncationExact show a collect needs; lines of 1 MiB or more are not appended.
- Panel.IngestTraffic: ends with the recorded number; the sync that follows it is the report step of PushCache, and the throughput rate is not modelled.
- MonthlyReset.AutoReset: ends with the recorded reset; the syncs that follow it are sync steps of PushCache.
- Columns no property speaks of: device counts and times, addresses, remarks and creation times.
- TailerWatcher.AccessWatcher.Collect: returns devices as a map, so the order of the reported list is not modelled.
- Agent.NodeAgent.ApplyConfig: runs without a crash or a reload in its middle; those are in ApplyProtocol.
- Hub.NodeHub.Register: does not model the lock; the interleavings it allows are in HubLifecycle.
- Admin sessions: an admin deleted and recreated under the same name starts again at epoch 0, so only portal sessions, keyed by identifier, are covered by Session.RevokedForGood.
- Text encodings: JSON and base64 are taken as faithful; documents are trees and tokens are their decoded text.
- Members of client entries other than email and uuid: the split ignores them, and built configurations give all clients the same.
- Transport: WebSocket, gRPC, Docker and the file system appear only as effects that happen or fail.
- Handlers, portal and admin pages, Telegram bot, notifications, backups, ACME, nginx templates and subscriptions: plumbing and formatting.
- Device retention, host metrics and throughput averages: no property beyond a single statement.
