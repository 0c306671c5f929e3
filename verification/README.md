# Lamella: the reliable frame exchange, verified

Lamella gives a host a WiFi interface that lives on an ESP32. Ethernet frames cross a USB
link that may lose messages, in both directions, and must arrive once and in order. This
project models the exchange in Dafny and proves what it guarantees, for every run.

The parts of the system are:

- the **host exchange task**: it takes at most one TAP frame, sends it under a fresh
  `(session, u32 id)`, retries that id until a matching response comes, then polls for one
  radio frame under the next id;
- the **endpoint wait**: a race of the primary request, one backup, a recovery deadline and
  cancellation;
- the **TX and RX servers** on the device: they recognise a retry by comparing it with the
  one transaction they answered last;
- the **bridge task** on the device: it moves frames between the radio and three bounded
  channels (64, 1 and 1 slots) and must never close a cycle of waiting;
- around them: the TAP readers, the hot-plug supervisor, the fault injector, the test-mode
  client and the header scan of the HTTP download test.

`Protocol.dfy` puts host, servers, bridge, channels and link into one transition system
with 19 kinds of steps. A state is *reachable* if some run leads to it. Theorems are about
every reachable state, so about every interleaving, every loss pattern and any number of
sessions. The tasks that are loops in the source are also loops here (`ExchangeLoop`,
`EndpointWait`, `Servers`, `BridgeLoops`, `FaultBudget`, `HotPlug`, `HeaderScan`) and are
proved to follow the transition system or a specification function.

## Files

| file | contents |
|---|---|
| `Wire.dfy` | records on the wire, 32-bit arithmetic |
| `Protocol.dfy` | the transition system and its runs |
| `HostLog.dfy`, `TxPath.dfy`, `RxPath.dfy` | what every step keeps |
| `Delivery.dfy` | exactly-once delivery, completion tokens, alternation |
| `Progress.dfy`, `NaiveBridge.dfy` | no circular wait; the bridge that would have one |
| `Wraparound.dfy` | identifiers that repeat: exact condition and a run that loses a frame |
| `OneSlot.dfy`, `Servers.dfy` | one remembered answer against a table of all answers |
| `ServerHistory.dfy` | what the servers did in every run: transmissions, pops and responses |
| `EndpointWait.dfy` | one wait with backup, deadline and cancellation |
| `SerialClient.dfy`, `ExchangeLoop.dfy` | the exchange task of the serial and NUSB transports, and its refinement |
| `ExchangeRuns.dfy` | what it writes to TAP, in every run |
| `RetryAccounting.dfy` | its counters against the requests, responses, errors and timers observed |
| `TapSide.dfy` | frames from the TAP device to the radio across sessions |
| `TestClient.dfy` | the test-mode client |
| `BridgeLoops.dfy` | the bridge task as loops |
| `FaultBudget.dfy` | the injected faults |
| `HotPlug.dfy` | the hot-plug supervisor |
| `HeaderScan.dfy` | the streaming header scan |

## Assumptions

- For each endpoint and direction the link keeps order. It may lose any message, delay it
  for any time, and deliver a response twice. Nothing is invented or altered.
- Session ids are distinct. Within one process this follows from distinct clock readings, and
  at one reading from distinct processes (`Wire.SessionIdsDiffer`, `Wire.ProcessIdsDiffer`).
- Exchange tasks of different sessions do not overlap. A lingering reader of an ended
  session is allowed.
- A timer set for an earlier time is seen first, where a lemma says so (`InDeadlineOrder`, `InTimerOrder`).
- `+=` on the bridge's `u32` statistics wraps, as in a release build.
- Serial numbers, logs and histories in the model are for the proofs. No step reads them to
  take a decision.

Where code and comment differ, the model follows the code: the interface description
(`icd/src/lib.rs:51-53`) speaks of one request in flight, but a wait may have two, the
primary and its backup; it is the *transaction* of which there is one.

One property one might expect is false of the code. An acknowledged frame can be lost: if
2^32 - 1 polls separate two TX transactions of a session, the second carries the identifier
of the first and the TX server takes it for a retry. `Wraparound.AcknowledgedButLost` is a
run in which this happens, and `Delivery.ExactlyOnceIffNoCollision` with
`Wraparound.CollisionIsPollCount` says exactly when it does.

## Model

| member | source | states |
|---|---|---|
| `Delivery.HostToWifi` | host/src/serial_transport.rs:507-594 | In every reachable state the radio has accepted from each session its acknowledged frames, in order, each once, then at most one whose acknowledgement is outstanding; missing are exactly the acknowledged frames whose identifier collided |
| `Delivery.ExactlyOnceIffNoCollision` | firmware-c3/src/bin/main.rs:229-272 | A session gets exactly-once, in-order delivery if and only if none of its acknowledged frames carried its predecessor's identifier |
| `Delivery.WifiToHost` | firmware-c3/src/bin/main.rs:298-338 | Over all sessions: in-size radio frames = popped, then queued, then held by the bridge; TAP got exactly the popped frames whose poll completed, in order; each session loses at most the one frame of its last poll |
| `Delivery.OneSessionWifiToHost` | host/src/serial_transport.rs:596-691 | Within one session nothing is lost: radio frames = handed to TAP, then the cached frame not accepted yet, then the queue, then the held frame |
| `Delivery.PollTakesTheHead` | firmware-c3/src/bin/main.rs:308-331 | In every reachable state a poll the cache does not answer gets the oldest queued frame and leaves the rest, and goes empty-handed only if nothing is queued; one the cache answers gets what it got before and leaves the queue alone |
| `Delivery.CompletionTokens` | firmware-c3/src/bin/main.rs:255-270 | Host frames queued or held plus completion tokens is one while the TX server waits and none otherwise; neither one-slot channel ever makes its sender wait; the token taken is for the frame last transmitted, which is the request being served |
| `Delivery.OneOpenTransaction` | host/src/serial_transport.rs:494-693 | At most one transaction of a session is open, its last one; in the current session only while the host retries it |
| `Delivery.Alternation` | host/src/serial_transport.rs:505-693 | Between any two TX transactions of a session there is an RX poll that was opened and completed, and the earlier TX is completed too |
| `Delivery.InvStep` | firmware-c3/src/bin/main.rs:229-556 | The invariant over host, link, both servers, channels and bridge is kept by every step |
| `HostLog.HostStep` | host/src/serial_transport.rs:494-693 | Every step keeps numbering (ids are offsets modulo 2^32 under distinct sessions), stop-and-wait, and alternation |
| `HostLog.EarlierCompleted` | host/src/serial_transport.rs:516-593 | A session opens a transaction only after all its earlier ones completed |
| `TxPath.ServeDecision` | firmware-c3/src/bin/main.rs:255-256 | The comparison with the last completed transaction decides for every request on the link: it is recognised exactly if the radio accepted it, or it collides with its predecessor |
| `RxPath.PollDecision` | firmware-c3/src/bin/main.rs:308-312 | The response cache recognises exactly the poll it answered, however long the session runs |
| `RxPath.MatchIsGenuine` | host/src/serial_transport.rs:663-676 | A response the host accepts for a poll is the answer to that poll, not to another with the same identifier |
| `Progress.NoCircularWait` | firmware-c3/src/bin/main.rs:430-458 | From every reachable state with a request under way, every schedule without loss has at most `Rank` steps besides oversize radio frames; until the transaction has completed it can go on without the radio delivering a frame, whatever the radio delivers and however full the queue is |
| `Progress.PromptDescends` | firmware-c3/src/bin/main.rs:517-554 | Every step without loss brings the whole system closer to rest, taking in-size frames from the radio included; an oversize frame changes nothing |
| `Progress.SomeStepEnabled` | firmware-c3/src/bin/main.rs:433-458 | With a request under way a step of the host, a server or the bridge is enabled, or the radio granting a TX token; the token only for an open TX whose server waits for the frame the bridge holds |
| `Progress.SendingMakesPending` | host/src/bridge.rs:42-47 | Sending the request, its backup or a retry puts a request under way |
| `Progress.BoundedTakeover` | firmware-c3/src/bin/main.rs:387-427 | Between any two moments of a run the bridge takes at most free slots + pops meanwhile + one radio frames |
| `NaiveBridge.NaiveGetsStuck` | firmware-c3/src/bin/main.rs:430-458 | A bridge that only waits for a free slot reaches a circular wait of host, TX server, bridge and queue |
| `NaiveBridge.StuckForever` | firmware-c3/src/bin/main.rs:430-458 | From that state no run without a new session, with any retries, changes the host |
| `Wraparound.CollisionIsPollCount` | host/src/serial_transport.rs:505-514 | A TX carries its predecessor's identifier if and only if the polls between them are 2^32 - 1 modulo 2^32 |
| `Wraparound.FewPollsExactlyOnce` | host/src/serial_transport.rs:507-594 | With fewer than 2^32 - 1 polls between consecutive TX transactions of a session, delivery is exactly once and in order |
| `Wraparound.ConsecutivePolls` | host/src/serial_transport.rs:596-601 | Consecutive polls are one or two identifiers apart modulo 2^32, so they never look the same |
| `Wraparound.AcknowledgedButLost` | firmware-c3/src/bin/main.rs:255-270 | A reachable state in which a frame was acknowledged and the radio never accepted it |
| `OneSlot.RefinesTableIffNoClash` | firmware-c3/src/bin/main.rs:234-270 | On every request sequence in send order, the server with one remembered answer acts and answers like one that remembers all, if and only if no two adjacent requests clash |
| `OneSlot.ServedInOrder` | host/src/serial_transport.rs:507-691 | What the servers receive from the stop-and-wait client over the lossy link is in send order |
| `ServerHistory.RxServerRefinesTable` | firmware-c3/src/bin/main.rs:308-331 | In every run the frames popped are those with which a server that remembers every poll of every session answers new polls, in order; the cached response and every response on the link are that server's answers |
| `ServerHistory.TxServerIsOneSlot` | firmware-c3/src/bin/main.rs:234-270 | In every run the radio accepted, in order, exactly the requests the one-slot server acts on, but for the one it is acting on |
| `ServerHistory.TxServerRefinesTable` | firmware-c3/src/bin/main.rs:255-270 | Without a collision these are the requests on which a server acts that remembers every transaction of every session |
| `OneSlot.TxDecisionIsHistory` | firmware-c3/src/bin/main.rs:255-256 | The TX server skips a request exactly if it received it before or it collides |
| `OneSlot.RxDecisionIsHistory` | firmware-c3/src/bin/main.rs:308-312 | The RX server repeats its answer exactly if it received the poll before |
| `Servers.WifiTxServer` | firmware-c3/src/bin/main.rs:229-272 | The loop answers every request under its own transaction and transmits what the one-slot server acts on |
| `Servers.WifiRxServer` | firmware-c3/src/bin/main.rs:298-338 | The loop answers every poll under its transaction with the one-slot server's answer |
| `EndpointWait.AwaitEndpointResponse` | host/src/bridge.rs:73-214 | The three `select!` loops end with the outcome the event sequence determines, at the first event that decides it |
| `EndpointWait.OverIffDecided` | host/src/bridge.rs:87-213 | A wait is over if and only if, looking at the events alone, one of them is a cancellation, the deadline where one is set, a success of a request that is out, or the failure of the last one that is out |
| `EndpointWait.FirstDecisionCounts` | host/src/bridge.rs:87-213 | The first such event gives the outcome: result, stall time, backup flag and discarded errors are those an observer of the events computes |
| `EndpointWait.UndecidedStands` | host/src/bridge.rs:125-206 | Until then the wait is on the primary, on both, or on the one that did not fail, as the stall timer and the failures seen say |
| `EndpointWait.AlwaysEnds` | host/src/bridge.rs:99-206 | A cancellation ends the wait wherever it stands, and so does the recovery deadline |
| `EndpointWait.CancelledOnlyIfSeen` | host/src/bridge.rs:99-206 | A wait is cancelled only if a cancellation was seen |
| `EndpointWait.WaitIsFaithful` | host/src/bridge.rs:87-213 | On every event sequence: at most one backup; stall time reported iff the backup was sent; a final error means the primary failed early or both failed; discarded plus final errors = failed requests; recovery never follows a success |
| `EndpointWait.NoDeadlineNoRecovery` | host/src/nusb_transport.rs:329-331 | Without a recovery timeout the outcome is never RecoveryRequired, so the arms marked unreachable are dead |
| `EndpointWait.StallTimes` | host/src/bridge.rs:26-27 | A reported stall lasted at least 250 ms and recovery comes no earlier than its deadline |
| `EndpointWait.RecoveryIsNotFirst` | host/src/bridge.rs:87-124 | With timers seen in deadline order the recovery timer never finds the primary alone |
| `EndpointWait.RecoveryFollowsBackup` | host/src/bridge.rs:87-151 | With timers seen in deadline order, recovery is required only after the backup was sent |
| `SerialClient.SerialClientRefinesProtocol` | host/src/serial_transport.rs:494-693 | Every run of the client against the device, over any number of sessions and with or without a recovery deadline, is a run of the protocol, and its ledgers balance at every moment |
| `RetryAccounting.RetriesAccountForRequests` | host/src/serial_transport.rs:516-593 | Over every run, per direction: requests on the link plus requests withheld by the fault injector = transactions in the host's log + stall timers + stale responses + final errors; recorded retries are the last three, up to backups of cancelled and open waits and recoveries before the stall timer |
| `RetryAccounting.OrderedTimersAccount` | host/src/serial_transport.rs:603-691 | With timers seen in deadline order and no backup racing: requests sent or withheld = transactions + recorded retries, up to backups of cancelled waits |
| `RetryAccounting.ErrorsAreCounted` | host/src/serial_transport.rs:567-592 | Over every run recorded endpoint errors = requests that failed, but for one of the open wait and those of waits cancelled or given up; recorded recovery timeouts = deadlines seen |
| `RetryAccounting.EndsExactlyOn` | host/src/serial_transport.rs:552-566 | The task ends exactly when it sees its cancellation or the recovery deadline |
| `RetryAccounting.CreatedIsPending` | host/src/serial_transport.rs:517-548 | A first copy, backup or retry that is not withheld puts the open request under way, so `Progress.NoCircularWait` applies |
| `RetryAccounting.NoDeadlineClient` | host/src/nusb_transport.rs:284-434 | The client without a recovery deadline refines the protocol, never asks for recovery, and its retries account for its requests |
| `ExchangeLoop.WifiExchange.Run` | host/src/serial_transport.rs:494-693 | The task as nested loops does what the client does, its metrics are the client's balanced ones, and every turn has one poll, after a TX if there was a frame |
| `ExchangeRuns.TapIsDelivered` | host/src/serial_transport.rs:665-676 | In every run what the task's loops follow writes to TAP exactly the frames the protocol's host delivered, in order |
| `ExchangeRuns.HandedIsDelivered` | host/src/serial_transport.rs:665-668 | Input by input, the frame written to TAP is the one carried by a response to the open poll |
| `ExchangeLoop.WifiExchange.SettleTx` | host/src/serial_transport.rs:516-593 | The TX retry loop follows the client through any events and ends settled, with the task, or waiting as the client does |
| `ExchangeLoop.WifiExchange.SettleRx` | host/src/serial_transport.rs:603-691 | The same for a poll, and the frame of the response that settles it, and no other, goes to TAP |
| `ExchangeLoop.WifiExchange.RecordTx` | host/src/serial_transport.rs:549-592 | Retries, errors, mismatches and recoveries recorded for each outcome of a TX wait |
| `ExchangeLoop.WifiExchange.RecordRx` | host/src/serial_transport.rs:636-690 | The same for an RX wait, with the frame written to TAP |
| `TapSide.LossIsBounded` | host/src/serial_transport.rs:439-491 | Over any sequence of sessions `tap_rx_frames` counts all frames read; in each session these are acknowledged, under way or abandoned, at most three abandoned; without a collision the radio accepted the first frames the session read, in order, each once: the acknowledged and at most one more |
| `TapSide.AllInPlaceStep` | host/src/serial_transport.rs:317-361 | Every step keeps each frame of each session in exactly one place, and the places in reading order |
| `TestClient.TestClientRefinesProtocol` | host/src/test_mode.rs:876-977 | Every run of the client that drops the response socket and resends every 250 ms is a run of the protocol |
| `TestClient.TestClientExactlyOnce` | host/src/test_mode.rs:1130-1231 | Without a collision the radio accepted the in-size frames of the network stack in order, each once, but perhaps the last; radio frames = pushed to the stack, then cached, then queued, then held |
| `TestClient.TestClientSends` | host/src/test_mode.rs:901-960 | After every observation that leaves a transaction open, timeouts, errors and stale responses included, exactly one more copy of its request is on the link, else none; so the request is under way |
| `TestClient.TestClientGoesOn` | host/src/test_mode.rs:876-977 | In every run, after a timeout, every schedule without loss is bounded and can go on until the transaction has completed |
| `TestClient.TestClientPolls` | host/src/test_mode.rs:880-936 | A poll follows every frame taken from the stack, also a discarded one, before the next is taken |
| `TestClient.StopsExactlyOnCancel` | host/src/test_mode.rs:880-976 | The client stops exactly when it is cancelled |
| `BridgeLoops.WifiBridge.TransmitOnly` | firmware-c3/src/bin/main.rs:366-378 | Transmits the frame at the first TX token the radio grants and takes nothing from the radio |
| `BridgeLoops.WifiBridge.TransmitToWifi` | firmware-c3/src/bin/main.rs:383-428 | Transmits at the first TX token; until then takes over every in-size radio frame in order, up to the one kept when the queue is full; at most free slots + pops + one; stays in the protocol |
| `BridgeLoops.WifiBridge.Signal` | firmware-c3/src/bin/main.rs:446-456 | Sending the completion token never waits |
| `BridgeLoops.WifiBridge.QueueWhileServing` | firmware-c3/src/bin/main.rs:433-458 | Queues the frame at the first free slot; no poll of a full queue leaves a host frame waiting, it is transmitted and signalled; the count is of frames transmitted and of tokens sent |
| `BridgeLoops.WifiBridge.ServeHost` | firmware-c3/src/bin/main.rs:518-534 | The host frame taken is the next the radio gets, and the statistics balance again |
| `BridgeLoops.WifiBridge.ServeRadio` | firmware-c3/src/bin/main.rs:536-553 | An in-size frame is received and queued, an oversize one only counted |
| `BridgeLoops.WifiBridge.NextPoll` | firmware-c3/src/bin/main.rs:507-517 | The task polls only when it can take no step of its own and has answered all the radio offered before |
| `BridgeLoops.WifiBridge.Run` | firmware-c3/src/bin/main.rs:461-556 | Cut after any poll the task is in a reachable state of the protocol and at rest: it took, in order, every in-size frame offered while it listened, transmitted with every token it waited for, and left no host frame it could take; at every head of the main loop `host_rx_count` = `wifi_tx_ok` = transmissions = tokens sent, and `wifi_rx_count` = radio frames taken, modulo 2^32 |
| `FaultBudget.EndpointFaultInjector.ShouldDrop` | host/src/serial_transport.rs:93-110 | Drops exactly matching requests while budget remains; remaining + drops is the budget |
| `FaultBudget.EndpointFaultInjector.DropAll` | host/src/serial_transport.rs:93-110 | In every interleaving of calls the first N matching requests are dropped and no other |
| `FaultBudget.Labels` | host/src/serial_transport.rs:55-61 | A backup is dropped in the directions its primary is, and TX and RX do not match each other |
| `FaultBudget.PromptExchange` | README.md:165-178 | On a prompt link recoveries are half the drops, rounded down; with enough rounds the budget N is used up after exactly floor(N/2) recoveries |
| `HotPlug.Supervisor.Supervise` | host/src/serial_transport.rs:222-382 | One TAP device at most, there iff a device has connected, with the first address; reconnects = sessions minus one; every session cancelled before the next; an error exactly if the first TAP device cannot be created |
| `HotPlug.Supervisor.Connect` | host/src/serial_transport.rs:282-361 | A connection keeps that, whatever address the device reports |
| `HotPlug.FirstMacIsFirst` | host/src/serial_transport.rs:282-308 | The expected address is that of the first device that connects, whatever comes later |
| `HotPlug.Supervisor.StartSession` | host/src/serial_transport.rs:309-318 | A session starts only when all earlier tokens are cancelled; all but the first count as reconnects |
| `HeaderScan.Position` | host/src/test_mode.rs:779 | The first blank line, or none if there is none |
| `HeaderScan.Download.Receive` | host/src/test_mode.rs:774-794 | After any chunk the counters are those of the whole response so far: total = position + 4 + body once the blank line is in |
| `HeaderScan.Download.ReceiveAll` | host/src/test_mode.rs:770-801 | The scan is done exactly if the joined chunks contain CRLFCRLF |
| `HeaderScan.ChunkingDoesNotMatter` | host/src/test_mode.rs:774-794 | Two ways to cut one response give the same result |
| `Wire.SessionIdsDiffer` | host/src/serial_transport.rs:695-703 | Within one process two session ids are equal iff the clock readings are |
| `Wire.ProcessIdsDiffer` | host/src/serial_transport.rs:695-703 | At one clock reading two session ids are equal iff the process ids are |
| `Wire.FullFrameFits` | icd/src/lib.rs:9 | A frame with a 14-byte header fits iff its payload has at most 1500 bytes |

The firmware for the ESP32-S3 (`firmware-s3/src/bin/main.rs:234-533`) has the same servers
and bridge with a unit token; the model covers both, since the token carries only history.

## Left out

- Ergot, postcard and COBS, the USB tasks (`run_tx`, `run_rx`, `usb_task`) and the retry on a full output queue in `send_tx_response`: they are behind the link assumptions.
- WiFi association, keepalive, board set-up, TAP creation, `ip`/`nmcli`/`wg` calls, device discovery and MAC query retries: calls into drivers and the system.
- smoltcp ping, TCP and UDP tests: what they do is decided by the smoltcp stack, which is not part of this model. The throughput binaries and scripts drive the programs from outside and hold no protocol state.
- NUSB with a peer that changes during a session: the model has one device. Progress after both requests of a wait are lost, which the code does not provide there.
- A time bound per transaction: the five seconds are per wait, and an error or a mismatch starts a new wait.
- Overlapping exchange tasks of two sessions: the supervisor cancels the old task but does not join it.
- Stall durations (`tx_stall_ms` and the like), byte counters, metrics output and wrap-around of `u64` counters.
- A failing TAP write: the frame counts as handed to TAP, as in the poll that fetched it.
- Errors a server sees while receiving: the request counts as lost.
- `Protocol`, `SerialClient`, `TapSide` and `TestClient` model tasks on values, as transition systems, because the properties are about interleavings; the loops of the test-mode client and of `tap_reader` are not also given as loops.
- `Servers.WifiTxServer` and `Servers.WifiRxServer` leave the channels to `Protocol`: waiting for the completion token, or for a frame with a timeout, is a step there and an argument here.
- `EndpointWait`: the order in which `select!` looks at ready branches is not modelled; every order is an event sequence.
- Statistics logging of the bridge task and its wait for the first connection.
