# flz_chat: a verified model of the messaging core

`flz_chat` keeps websocket sessions of users, forwards what they send to a message broker, and pushes broker
events back to their devices. This project models the state machines at its centre and proves what they
guarantee over whole runs. Nothing here executes the program; `dafny verify dfyconfig.toml` checks every proof.

| file | what it models |
|---|---|
| `idempotency_cache.dfy` | the duplicate filter: list, hash index, TTL and capacity |
| `consumer.dfy`, `backoff.dfy` | the consume loop against an adversarial broker and connection |
| `publisher.dfy` | the bounded publish queue, its producers and its worker |
| `online_conn.dfy` | a connection and its per-second frame allowance |
| `session_registry.dfy` | the user -> device -> connection table |
| `lifecycle.dfy` | onConnect / onClose as atomic callbacks |
| `interleaving.dfy`, `interleaved_presence.dfy`, `presence_reads.dfy` | the same, each registry call and publish a step of its own |
| `pending_sends.dfy`, `send_outcomes.dfy` | sends waiting for the broker's echo, and what becomes of each |
| `fan_out.dfy`, `recipients.dfy` | broker events to websocket frames, and who hears what |
| `delivery.dfy` | the consume loop with the event handler behind it |
| `correlation.dfy` | sends, echo handlers and the registry together |
| `session_upkeep.dfy` | the per-frame gate and the periodic timer |
| `base64url.dfy`, `decimal.dfy`, `jwt.dfy` | the token codec and verifier |
| `histogram.dfy` | the latency histogram |

How to read it. Every component is a class whose methods keep the program's loops, branches and in-place
updates. A method's contract equates the new state with a function of the old one, or relates the two where
hash-map iteration order decides (`Added`, `Lists`). Run-level theorems are lemmas about sequences of those
steps. Ghost fields record what the program does to the outside: deliveries settled, presence events published,
frames sent to each connection, insertions made. A clock is any integer the environment supplies; lemmas that
need it to be non-decreasing say so.

Atomicity. `PresenceIsFaithful` takes whole callbacks as atomic steps. `FaithfulWithoutOverlap`,
`OnlinesAlternateIff`, `LatestIsOnlineIff`, `AgreesIff`, `NoGhostConnections`, `RegisteredIff`, `OneReplyPerSend`, `ReplyIsOwnIff`,
`InsertionsConserved`, `TakenLatency`, `AgeBoundIff`, `FailureErasesByKey`, `PublishCallsConserved` and
`SendsFollowAcceptanceOrder` take each lock-protected section as a step of its own, interleaved arbitrarily; in
`correlation.dfy` a handler takes the pending record in one step and looks up the sender in another, with any
number of handlers in between. The frames of one broker event (`OnEnvelope`) are stated against one registry:
there the handler is one step. Calls of `ConsumeToken` on one connection are atomic.

Properties a reader might expect that the code does not have, each with a run that shows the failure and the
exact condition under which the code does have it:

| expected | failing run | exactly when it holds |
|---|---|---|
| a requeued message is retried | `RequeuedIsNotRetried` | `RedeliveryInWindowIsDuplicate` |
| every delivery obtained is settled | `StopLosesDelivery`, `BadKindLosesDelivery` | `EveryDeliverySettledOnce` |
| a new connection stays registered | `OldestMayGo` | `NewConnectionStays` |
| an open session is registered | `CloseDropsSuccessor` | `RegisteredIff` over runs, `CertainToStayIff` before a step |
| Onlines of a user alternate with Offlines | `InterleavedChecksRepeatOnline` | `OnlinesAlternateIff` |
| outside callbacks, a user's latest event is Online iff the user is registered | `LateOffline` | `AgreesIff` |
| a response answers the message echoed | `CrossedReply` | `ReplyIsOwnIff` |
| a failed publish erases its own record only | `FailureMayEndAnother` | `FailureErasesByKey` |
| no pending entry is older than the last sweep allows | `SlowInsertBreaksAgeBound` | `AgeBoundIff` |
| a user id that is not a plain 64-bit numeral is refused | `ParseDigits`, `ParseIff` | `ParseIff` |

Both presence properties always hold for a user whose own callbacks do not overlap (`FaithfulWithoutOverlap`).
Overlap need not do harm, so its absence is not the exact condition: a second device may check once the first has
entered, and then announces nothing. The exact conditions are about what sessions read from the registry
(`FoundAbsent`, `FoundGone`) and when they announce it.

## Model

| member | source | states |
|---|---|---|
| IdempotencyCache.LruIdempotencyCache.TryMark | chat/util/lru_idempotency.cc:11-39 | keeps list and index in bijection and within capacity for any clock; list and verdict equal `Marked` |
| IdempotencyCache.LruIdempotencyCache.Sweep | chat/util/lru_idempotency.cc:41-50 | from any linked state, terminates and keeps list and index in bijection |
| IdempotencyCache.SweepRemovesOnlyExpired | chat/util/lru_idempotency.cc:41-50 | within capacity and for any clock, only expired entries are removed and the tail left is unexpired |
| IdempotencyCache.MarkRefines | chat/util/lru_idempotency.cc:11-39 | one call turns the window of the history into the window of the extended history; the found-but-expired branch is unreachable |
| IdempotencyCache.CacheRefinesHistory | chat/util/lru_idempotency.cc:11-50 | after any calls in clock order the list is the newest min(capacity, number unexpired) accepted marks as of the last sweep |
| IdempotencyCache.TryMarkVerdict | chat/util/lru_idempotency.cc:11-25 | a key is accepted iff it is non-empty and none of the newest `capacity` accepted marks carries it unexpired |
| Consumer.MqConsumer.Run | chat/mq/consumer.cc:108-172 | the loop computes `RunRounds` for every environment, and the 32-bit delay never overflows |
| Consumer.RoundAdds | chat/mq/consumer.cc:111-170 | what one more round of any run logs, told from the rounds, the log and the dispatches before it alone: whether a connection must be made first, and the events of every kind of poll, body and duplicate |
| Consumer.ConnectedIff | chat/mq/consumer.cc:112-149 | a connection must be made iff nothing has happened yet, the last attempt failed, it was closed, or a settlement did not reach the broker |
| Consumer.BrokenReconnects | chat/mq/consumer.cc:111-131 | a run in which a broken connection is not used again |
| Consumer.MqConsumer.HandleDelivery | chat/mq/consumer.cc:133-170 | parse, de-duplicate, dispatch, settle and count one delivery |
| Consumer.EnvelopeFrom | chat/mq/envelope.cc:25-54 | accepted iff an object with non-empty id and type and a positive version; a field of the wrong JSON kind throws |
| Consumer.EveryDeliverySettledOnce | chat/mq/consumer.cc:108-172 | settlements and counts pair with the deliveries obtained, in order and fitting each other, all but at most one; all of them iff none arrives with a stop and none makes an accessor throw |
| Consumer.StopLosesDelivery | chat/mq/consumer.cc:119-124 | a run in which a delivery arrives with the stop and is not settled |
| Consumer.BadKindLosesDelivery | chat/mq/envelope.cc:30-34 | a run in which an accessor throws and the delivery is not settled |
| Consumer.AtMostOnceDispatch | chat/mq/consumer.cc:111-170 | two dispatches of one id are ttl apart, or `capacity` dispatches with pairwise distinct other ids lie between |
| Consumer.FilterFollowsDispatches | chat/mq/consumer.cc:143-163 | over any run of the loop the filter holds exactly the window of the messages dispatched |
| Consumer.RedeliveryInWindowIsDuplicate | chat/mq/consumer.cc:143-163 | a redelivery is acknowledged as a duplicate, without dispatch, iff its id was dispatched within the window, even if requeued |
| Consumer.RequeuedIsNotRetried | chat/mq/consumer.cc:143-163 | a run in which a message answered NACK_REQUEUE and redelivered within ttl is acknowledged as a duplicate |
| Consumer.BackoffFollowsFailures | chat/mq/consumer.cc:110-117 | every sleep is min(max, initial*2^k) after k consecutive failures, initial for k = 0 |
| Publisher.MqPublisher.Publish | chat/mq/publisher.cc:46-62 | appends within capacity and otherwise counts a failure |
| Publisher.MqPublisher.Run | chat/mq/publisher.cc:84-124 | the worker loop with producers at every point equals the run of its schedule |
| Publisher.PassTakesFront | chat/mq/publisher.cc:86-122 | one pass of the worker takes exactly the front task and disposes of it |
| Publisher.ScheduleOffersArrivals | chat/mq/publisher.cc:46-62 | everything that arrives during the passes is offered, in order |
| Publisher.ActionEffect | chat/mq/publisher.cc:46-124 | what a call, a fetch and a delivery do after any others: a task with room goes to the back, the front goes in flight, and how it is settled |
| Publisher.AcceptedIsWithRoom | chat/mq/publisher.cc:46-62 | over any interleaving exactly the calls that find room are accepted, in call order |
| Publisher.ConnectedIffLastSent | chat/mq/publisher.cc:104-122 | there is a connection iff the last task was sent over it |
| Publisher.PublishCallsConserved | chat/mq/publisher.cc:46-124 | calls = ok + fail + queued + in flight; the queue stays within capacity; the calls that found room = settled ++ in flight ++ queued |
| Publisher.SendsFollowAcceptanceOrder | chat/mq/publisher.cc:90-122 | tasks handed to the broker are a subsequence of the accepted ones in order, none twice, none of them missing |
| Publisher.BackoffFollowsFailures | chat/mq/publisher.cc:85-111 | the delay is min(max, initial*2^k) after k consecutive tasks that found no connection |
| OnlineConnection.OnlineConn.ConsumeToken | chat/session/online_conn.h:39-52 | refill and spend, as the `Consumed` step |
| OnlineConnection.RateBound | chat/session/online_conn.h:39-52 | any interval of L >= 1 ms has at most (ceil((L - 1)/1000) + 1) * max(rate, 0) successes |
| OnlineConnection.RateBoundIsTight | chat/session/online_conn.h:39-52 | for every positive rate and every L the bound is reached |
| OnlineConnection.BurstGrantsRate | chat/session/online_conn.h:39-52 | within the second after a refill the calls that succeed are exactly the first ones, as many as there are tokens |
| Sessions.SessionRegistry.Add | chat/session/session_registry.cc:11-40 | replacement and oldest-first eviction for any iteration order |
| Sessions.SessionRegistry.Remove | chat/session/session_registry.cc:42-53 | removal by key, dropping an emptied user |
| Sessions.SessionRegistry.GetByUser | chat/session/session_registry.cc:65-77 | each connection of the user exactly once |
| Sessions.SessionRegistry.Touch | chat/session/session_registry.cc:90-101 | refreshes the connection under the key and no other |
| Sessions.SessionRegistry.CollectTimeouted | chat/session/session_registry.cc:103-116 | exactly the connections idle since the deadline, each once |
| Sessions.AllConnsIff | chat/session/session_registry.cc:103-116 | the connections visited are exactly those registered under their own keys |
| Sessions.SessionRegistry.OnlineConnections | chat/session/session_registry.cc:123-131 | the summing loop equals the number of registered (user, device) pairs |
| Sessions.AddConserves | chat/session/session_registry.cc:11-40 | old + new = kept + evicted + replaced, disjointly; evicted logged in no later than kept |
| Sessions.AtMostOneEvicted | chat/session/session_registry.cc:18-38 | under a constant limit >= 1 at most one eviction, never with a replacement |
| Sessions.NewConnectionStays | chat/session/session_registry.cc:25-38 | exactly when the added connection is itself certain not to be evicted |
| Sessions.AlwaysSound | chat/session/session_registry.cc:11-131 | over any history: no empty user, own keys, users <= connections <= limit * users |
| Lifecycle.ChatWSServlet.OnConnect | chat/chat_servlet.cc:86-137 | opens exactly for a token the verifier admits: registers a new connection, kicks the displaced ones and queues the online event of a first device; presence grows by the events in the tasks offered |
| Lifecycle.ChatWSServlet.OnClose | chat/chat_servlet.cc:139-152 | removal by header identity, and the offline event queued if the user is gone; presence grows by the events in the tasks offered |
| Lifecycle.ChatWSServlet.PublishUserOnline | chat/mq/publisher.cc:64-68 | offers the task business.user.online with the user's id |
| Lifecycle.ChatWSServlet.PublishUserOffline | chat/mq/publisher.cc:70-74 | offers the task business.user.offline with the user's id |
| Lifecycle.TasksMean | chat/mq/publisher.cc:64-74 | the two presence tasks, literally, and the events read in them |
| Lifecycle.KicksMean | chat/chat_servlet.cc:113-120 | the replaced connection is told login_elsewhere and each evicted one too_many_devices, and nobody else anything |
| Lifecycle.PresenceIsFaithful | chat/chat_servlet.cc:102-150 | a user's latest event is Online iff the user is registered; Onlines alternate with Offlines |
| InterleavedPresence.FaithfulWithoutOverlap | chat/chat_servlet.cc:102-150 | the same for a user whose callbacks do not overlap each other, whatever other users do in between, at every point where none of the user's sessions is inside a callback |
| PresenceReads.OnlinesAlternateIff | chat/chat_servlet.cc:103-150 | Onlines of a user alternate iff between any two announcements by sessions whose check found the user absent lies one by a session whose recheck found the user gone |
| PresenceReads.LatestIsOnlineIff | chat/chat_servlet.cc:103-150 | the latest event is Online iff a session that found the user absent has announced and none that found the user gone has since |
| PresenceReads.RegisteredUserIff | chat/session/session_registry.cc:11-53 | a user is registered iff a session of the user entered and no Remove of the last device came since |
| PresenceReads.AgreesIff | chat/chat_servlet.cc:103-150 | latest event and registry agree iff the announcements say the same as the entries and removals |
| Interleaving.NoGhostConnections | chat/session/session_registry.cc:11-53 | after a session's Remove its connection is never registered again |
| Interleaving.RemoveUnregistersKey | chat/session/session_registry.cc:42-53 | a close unregisters exactly the holder of its key, whoever that is |
| Interleaving.StepKeepsRegistered | chat/session/session_registry.cc:11-53 | from its entry on, a step leaves a session's connection registered iff it was and the step is no close or entry under its key and no eviction of it |
| Interleaving.RegisteredIff | chat/chat_servlet.cc:103-150 | at any point after its entry a session is registered iff its own entry did not evict it and no later step displaced it |
| Interleaving.CertainToStayIff | chat/session/session_registry.cc:18-38 | told from the state before a step: the connection stays whatever the map's iteration order iff no close or entry has its key and an entry of its user replaces, finds room, or finds or brings an earlier login |
| Interleaving.RegisteredWhileCertain | chat/chat_servlet.cc:103-150 | a session is registered as long as it is certain to stay at each step |
| Interleaving.CloseDropsSuccessor | chat/session/session_registry.cc:42-53 | a run in which a replaced session's close unregisters its successor |
| PresenceReads.InterleavedChecksRepeatOnline | chat/chat_servlet.cc:103-134 | a run in which two interleaved connects announce Online twice |
| PresenceReads.LateOffline | chat/chat_servlet.cc:147-150 | a run after which all callbacks are over and a registered user's latest event is Offline |
| PendingSends.WsToMqDispatcher.HandleMsgSend | chat/dispatch/ws_to_mq.cc:20-79 | refusals 400 / 413, record and queue, or 503 with the record erased |
| PendingSends.WsToMqDispatcher.TakePending | chat/dispatch/ws_to_mq.cc:106-115 | returns and removes the record |
| PendingSends.WsToMqDispatcher.SweepPending | chat/dispatch/ws_to_mq.cc:117-131 | erases exactly the records created at or before the deadline |
| PendingSends.EraseExpired | chat/dispatch/ws_to_mq.cc:121-130 | the erase-while-iterating loop for any order |
| PendingSends.InsertionsConserved | chat/dispatch/ws_to_mq.cc:41-131 | insertions = taken + swept + failed + overwritten + pending, under any interleaving |
| PendingSends.FateIsFinal | chat/dispatch/ws_to_mq.cc:41-131 | however a run goes on, an insertion keeps its contents, and its fate once it has ended |
| PendingSends.TakenLatency | chat/dispatch/ws_to_mq.cc:41-131 | 0 <= latency < ttl + (t - last sweep's reading), however stale that reading, so the unsigned cast is exact |
| SendOutcomes.PendingIffUndisturbed | chat/dispatch/ws_to_mq.cc:41-131 | a record is still pending iff no later section inserts, fails or takes under its key or sweeps past its creation |
| SendOutcomes.AgeBoundIff | chat/dispatch/ws_to_mq.cc:41-131 | whatever follows a sweep, every pending entry was younger than ttl at its reading iff no thread inserted an entry already due after it whose record is still pending |
| SendOutcomes.OnlySlowThreadsBreakAgeBound | chat/dispatch/ws_to_mq.cc:41-50 | under clock order the bound fails only if a thread waited a full ttl between reading the clock and inserting |
| SendOutcomes.SlowInsertBreaksAgeBound | chat/dispatch/ws_to_mq.cc:41-50 | a run in which the clock is read a full ttl before the insertion and the age bound fails |
| SendOutcomes.FailureErasesByKey | chat/dispatch/ws_to_mq.cc:67-71 | a failed publish ends its own record iff nothing in between disturbed it, and another send's record iff that send inserted under the key in between and its record survives |
| SendOutcomes.FailureMayEndAnother | chat/dispatch/ws_to_mq.cc:67-71 | a run in which a failed publish ends another send's record |
| FanOut.MqToWsDispatcher.PushToUser | chat/dispatch/mq_to_ws.cc:46-64 | each reachable connection of the user gains one push, nobody else anything |
| FanOut.MqToWsDispatcher.OnChatMsgSend | chat/dispatch/mq_to_ws.cc:66-125 | exact fan-out of a chat message, the record taken and its latency observed |
| FanOut.MqToWsDispatcher.OnChatMsgRecall | chat/dispatch/mq_to_ws.cc:137-155 | one push per connection of the operator and distinct receivers |
| FanOut.MqToWsDispatcher.OnConversationCreated | chat/dispatch/mq_to_ws.cc:180-192 | one push per listing: member ids are not de-duplicated |
| FanOut.MqToWsDispatcher.OnConversationMemberChanged | chat/dispatch/mq_to_ws.cc:194-218 | one push per connection of the distinct users added, removed or changed |
| FanOut.MqToWsDispatcher.OnEnvelope | chat/dispatch/mq_to_ws.cc:20-44 | for every event type, the verdict, the record taken, the latency observed and the exact frames every connection gains |
| Recipients.GainsMeans | chat/dispatch/mq_to_ws.cc:46-64 | in terms of the outboxes and the registry's maps: a live registered connection gains the frames at the end, any other keeps what it had |
| Recipients.ChatReceiverHears | chat/dispatch/mq_to_ws.cc:112-123 | a listed user other than 0 and the sender hears once on each connection, however often listed, and others nothing |
| Recipients.ReceiverIsTold | chat/dispatch/mq_to_ws.cc:66-125 | the same of the dispatcher's own run on one live connection |
| Recipients.ChatSenderHears | chat/dispatch/mq_to_ws.cc:72-110 | the sender hears only for a pending send: the response on the originating device, the message elsewhere |
| Recipients.RecallHears | chat/dispatch/mq_to_ws.cc:137-155 | the operator and every listed receiver hear once |
| Recipients.ReplayTargetHears | chat/dispatch/mq_to_ws.cc:127-135 | the target hears once |
| Recipients.FriendsHear | chat/dispatch/mq_to_ws.cc:157-178 | a request reaches its addressee, an acceptance both friends, once |
| Recipients.CreatedMemberHears | chat/dispatch/mq_to_ws.cc:180-192 | one frame for every time the member is listed |
| Recipients.ChangedMemberHears | chat/dispatch/mq_to_ws.cc:194-218 | everyone added, removed or given another role hears once |
| Recipients.OthersHearNothing | chat/dispatch/mq_to_ws.cc:42-43 | events of any other type reach no one |
| Recipients.DroppedIff | chat/dispatch/mq_to_ws.cc:127-183 | an event is dropped iff its recipient is 0 or its member list is no array |
| Delivery.FramesAtMostOncePerWindow | chat/mq/consumer.cc:82-106 | over any run of loop and handlers, two frames of one message to one connection come from dispatches ttl apart or `capacity` other messages apart, or from one conversation.created that lists the connection's user at least twice |
| Delivery.FramesPerDispatch | chat/dispatch/mq_to_ws.cc:20-218 | a dispatch sends a connection at most one frame, except conversation.created: one for each listing of its user |
| Delivery.RequeueOnlyOnFailure | chat/mq/consumer.cc:82-106 | a delivery is settled NACK_REQUEUE iff it was dispatched and its handler threw or was late |
| Correlation.ResponseGoesToResponder | chat/dispatch/mq_to_ws.cc:77-108 | at most one connection gains a response: the one under the echo's sender and the recorded device |
| Correlation.OneReplyPerSend | chat/dispatch/mq_to_ws.cc:72-110 | each insertion yields at most one response, with its seq, to one connection on its device, with any number of handlers in flight |
| Correlation.ReplyIsOwnIff | chat/dispatch/mq_to_ws.cc:72-110 | a response to the echo of a send is that send's own, to its user and device with its seq, iff no insertion of the key came between it and the take; otherwise it is the last such insertion's |
| Correlation.CrossedReply | chat/dispatch/mq_to_ws.cc:72-97 | a run in which two users share a client message id and a response carries the other's seq |
| SessionUpkeep.AdmitFrame | chat/chat_servlet.cc:155-177 | the gate before a frame is parsed |
| SessionUpkeep.OnTimer | chat/my_module.cc:108-129 | closes exactly the idle sessions and sweeps the pending table |
| Base64Url.Encode | chat/util/base64url.cc:11-24 | alphabet substitution and padding removal loops |
| Base64Url.Decode | chat/util/base64url.cc:26-40 | alphabet restoration and padding loops |
| Base64Url.RoundTrip | chat/util/base64url.cc:11-40 | Decode(Encode(x)) = x for every byte string |
| Base64Url.PadRestores | chat/util/base64url.cc:35-37 | re-padding restores exactly the stripped padding |
| Base64Url.EncodeUrlShape | chat/util/base64url.cc:11-24 | URL-safe characters only, no '=', length never 1 modulo 4 |
| Base64Url.EncodeUrlAt | chat/util/base64url.cc:11-24 | every character is the letter of the URL-safe alphabet of RFC 4648 for its six bits of the input |
| Base64Url.StdLetter | chat/util/base64url.cc:11-13 | the standard alphabet of RFC 4648 |
| Base64Url.EncodeInjective | chat/util/base64url.cc:11-24 | different byte strings have different encodings |
| Base64Url.Vectors | chat/util/base64url.cc:11-24 | vectors of RFC 4648 section 10 |
| Jwt.Split | chat/auth/jwt.cc:17-30 | the splitting loop |
| Jwt.JoinSplit | chat/auth/jwt.cc:17-30 | joining the parts gives the text back, and no part holds the separator |
| Jwt.ParseIff | chat/auth/jwt.cc:32-43 | exactly which strings parse and to what: leading space, sign, digits, anything after a NUL; saturated, negated modulo 2^64 |
| Jwt.CStringIff | chat/auth/jwt.cc:37 | the C function sees exactly the part before the first NUL |
| Jwt.ParseDigits | chat/auth/jwt.cc:32-43 | a digit string parses to its value iff that fits 64 bits; larger ones saturate |
| Jwt.ParseOfPrint | chat/auth/jwt.cc:32-43 | parsing undoes decimal printing |
| Jwt.Verify | chat/auth/jwt.cc:47-130 | accepts iff the token is three dot-free parts that grant claims, and returns them; a rejection names a broken requirement; an exception comes only from an accessor that throws |
| Jwt.AdmittedMeans | chat/auth/jwt.cc:47-130 | an accepted token's third part is the encoded digest of the first two, its header says HS256, and its issuer, times and user id are as required, in plain arithmetic |
| Jwt.ClaimsMean | chat/auth/jwt.cc:99-129 | the claims are those of the payload's members |
| Jwt.ForgedIsRejected | chat/auth/jwt.cc:91-97 | a token with any other text as its third part is not accepted |
| Jwt.ReasonMeans | chat/auth/jwt.cc:51-97 | what each reason given before the claim checks says of the parts |
| Jwt.AccessorsMean | chat/auth/jwt.cc:80-129 | what the JSON accessors read from each kind of value |
| Jwt.IssuedTokenIsAccepted | chat/auth/jwt.cc:47-130 | a token built from valid claims is accepted with exactly those claims |
| Histogram.ChatMetrics.ObserveMsgSendLatencyMs | chat/metrics/metrics.cc:43-53 | increments the first bucket that covers the value |
| Histogram.ChatMetrics.RenderHistogram | chat/metrics/metrics.cc:93-100 | each cumulative count is the number of observed values within its bound; non-decreasing, bounded by the +Inf count |

## Left out

- The AMQP client, topology declaration and the broker: their outcomes are inputs of every step. Manual acknowledgement is assumed (`consumer_auto_ack` false).
- FanOut.MqToWsDispatcher.OnEnvelope: one registry throughout the handler; that each user's lookup is a section of its own is modelled only for the sender's, in `correlation.dfy`.
- Sockets, I/O managers, threads and logging: scheduling a frame and sending it are one step; kicked and timed-out sessions are recorded, their later onClose is a separate callback.
- `flz::base64encode/decode` and `flz::TypeUtil::Atoi` are not part of this model: RFC 4648 section 4 stands for the first two (malformed text decodes as empty), and the header keeps the user id as a number.
- JSON parsing and printing, HMAC: parameters of the verifier. JSON numbers are integers; an accessor that throws on a payload field is a handler that throws, in `delivery.dfy`; `OnEnvelope` itself is modelled for payloads on which none does.
- Jwt.Verify: does not model signed overflow of `exp + clock_skew_seconds` for an expiry within a minute of 2^63.
- IdempotencyCache.LruIdempotencyCache.TryMark: asks that `now + ttl` fit 64 bits, since the program's addition is undefined otherwise.
- Consumer.MqConsumer.Run: asks for non-negative delays below 2^30, since doubling larger ones is undefined; the configuration does not check this.
- Publisher.MqPublisher.Run: producers and worker are interleaved at the lock-protected sections; the 500 ms wait is not modelled.
- PendingSends.WsToMqDispatcher.HandleMsgSend: the `sentAt` and `mediaMeta` payload fields are not modelled.
- Sessions.SessionRegistry.Add: the null connection is not modelled; the only caller passes a new object.
- Message counters per type, Prometheus text, UUIDs, ISO 8601 times, configuration loading, servlet registration, `ExtractToken`, `HandleMsgAck`, `HandleMsgRead` and the frame-type chain: each is settled by reading one branch.
