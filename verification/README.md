# NEXA: verified model of the relay gateway and the message core

NEXA is an end-to-end encrypted messenger: a Rust core on the devices and a relay gateway that stores and routes
ciphertext. This project models the parts whose correctness depends on state, ordering or exact formats, in Dafny 4.11,
and proves what they guarantee over whole runs. `dafny verify dfyconfig.toml` checks everything.

| files | part | main results |
|---|---|---|
| `Relay`, `RelayStore`, `RelayRuns`, `RelayAnswers` | offline message store | the cached totals refine recomputed sums and never saturate; conservation; queues and `pull` answer exactly what the event log says, whatever the clock readings; exactly when each answer of a push comes |
| `Connections`, `Gateway`, `GatewayViews`, `GatewayRuns`, `Delivery`, `Ordering`, `Replacement`, `Lifecycle`, `Progress`, `Limits` | live delivery as a step machine | no message falls between backlog and live routing; a full buffer means a message already left the relay; live delivery is first-in, first-out; at most two copies to one session, and exactly when there are two or none; which session an entry holds; every session can complete and end; runs showing where the guarantees end |
| `Crypto`, `Ratchet`, `Receive`, `ReceiveRuns`, `ReceiveLimits`, `Snapshot`, `Reachable` | receive ratchet | refinement of "the set of used counters"; order independence; exactly when restarts are invisible; exactly which receivers are reachable |
| `Auth`, `AuthRuns`, `AuthAnswers` | request authentication | exactly who is accepted; at most 720 live nonces per device; a request is replayable exactly when its timestamp is not earlier than its acceptance by more than the longest wait for the lock |
| `Bundle`, `Prekeys`, `PrekeyRuns`, `PrekeyAnswers` | prekey registry | exactly when each call succeeds; single winner per key, idempotent retries, increasing generations, final revocation |
| `SignedPrekeys`, `Session` | prekey rotation, key agreement | exact grace period; both sides derive the same root, which is bound to the handshake; one establishment per one-time prekey |
| `JournalNames`, `Journal`, `JournalRuns` | encrypted journal | crash safety of a save stopped anywhere; which saves of a run succeed; recovery after corruption and swaps; journals do not interfere |
| `Prelude`, `BigEndian`, `Protocol`, `Transport`, `Sums`, `EndToEnd`, `DeviceRuns` | formats, shared lemmas and properties across parts | codecs are exact inverses; every relayed message fits a frame and decodes to itself; a ratchet kept in a journal answers a counter twice exactly when a restart goes back behind its first answer |

How the model reads the code:

- A lock held over a region makes that region one atomic step. `relay.push` and `connections.try_send` stay two steps, and
  taking a connection id, registering, pulling, each backlog write, activation, each receive, unregistering and dropping
  the receiver are separate steps that interleave freely.
- Objects that the code updates in place are classes; each method is proved equal to a step function on values, and the
  properties are proved about runs of those functions. The function of the relay store has no cached totals at all: the
  class is proved to agree with sums over the queues, which is why its saturating subtractions are exact.
- Cryptography enters as records of functions with the few laws that are used, each stated as a predicate: an AEAD opens
  what it seals and adds a 16-byte tag (section 2.8 of RFC 8439), Diffie-Hellman commutes (section 6.1 of RFC 7748). Only
  the lemmas about different keys and roots assume a collision-free HKDF; no law about SHA-256 or Ed25519 is needed. HKDF's only failure, an output longer than 255 blocks, cannot occur for
  32 bytes, so key derivation is total. Authenticity of the journal's cipher is a hypothesis about what is written over
  its files (`JournalRuns.Honest`).
- Clocks, nonces, fresh keys and the point where a process stops are parameters. The authenticator gets two readings, one
  before and one after the wait for its lock; the relay's readings are taken before its lock, so they may come in any order.
- 16- and 32-byte identifiers and keys are numbers, through the big-endian bijection; the codecs convert. `usize` has 64
  bits.
- `serial`, `log`, `early`, `refused` and `written` are history variables: nothing branches on them.

Where a natural claim is false of the code, the code is kept and the exact condition is proved:

- Live delivery is not exactly-once (`Limits.MessageCanBeSentTwice`); the bound is two (`Delivery.AtMostTwice`), and a
  live session gets a backlog message again exactly when its offer took effect after the activation and found room
  (`Delivery.SentTwiceExactlyWhen`).
- Activation suppresses by message id. A message acknowledged during the flush and accepted again under the same id stays
  in the relay queue without reaching the open session (`Limits.ReacceptedMessageCanBeSuppressed`). This happens exactly
  when another acceptance of its id was in the snapshot and its own offer came, with room, before the activation
  (`Delivery.StoredIsRoutedExactlyWhen`), so never to a sender that uses each id once
  (`Delivery.NoMessageIsMissedWithoutReuse`).
- A device's entry can hold an older connection than one issued later (`Limits.OlderConnectionCanWin`). It always holds
  the newest one exactly in the runs whose registrations follow id order (`Replacement.EntryIsAlwaysNewestExactlyWhen`).
- The skipped-key map is not bounded by 256, and a receiver with more cannot be saved
  (`ReceiveLimits.SkippedKeysCanExceedASnapshot`). An exhausted chain can be saved but not restored
  (`Snapshot.RestartIsIdentityExactlyWhen`), which decides when restarts are invisible
  (`Snapshot.RestartsAreInvisibleExactlyWhen`). Restoring accepts receivers that no run reaches
  (`ReceiveLimits.RestoreAcceptsUnreachableReceivers`); which ones is `Reachable.RestoredIsReachableExactlyWhen`.
- A request can be accepted again once its nonce expires, if its timestamp is in the future, or if it is past by no more
  than a request may wait for the lock: the wall clock is read before the wait, the instant after it
  (`AuthRuns.ReplayableExactlyWhen`).
- A pull may miss a message that is not expired by its own reading: `push` and `pull` read the clock before they take the
  lock, so a look with a later reading can come first. It misses a live message exactly when such a look, at or after the
  expiry, came after the acceptance (`RelayRuns.PullMissesExactlyWhen`).
- The comment on the journal speaks of uniquely named temporary files, but the name is fixed by the generation: a
  left-over file blocks every later save (`JournalRuns.LeftoverBlocksSaving`), and nothing else does while generations
  last (`JournalRuns.SaveSucceedsExactlyWhen`).

## Model

| member | source | states |
|---|---|---|
| Delivery.NoMessageFallsBetween | backend/src/main.rs:46-80 | In every interleaving, once the session registered for a device has pulled, each message in the device's relay queue is in the backlog, still to be offered, pending, in the channel, already handed to the socket, or was refused by a full buffer; the one exception, for a live session only, is a message offered before the activation while its id, under another acceptance, was in the backlog. |
| Delivery.NoMessageIsMissedWithoutReuse | backend/src/main.rs:46-80 | If no other message accepted for the device has its id, the message itself is in the backlog, still to be offered, pending, in the channel, handed over or refused. |
| Delivery.StoredIsRoutedExactlyWhen | backend/src/main.rs:69-79 | For a live session: a stored message is in the channel or handed over live if and only if its offer is not due, found room, and did not precede the activation with its id in the backlog; so it is missed exactly when another acceptance of its id was in the snapshot and its own offer came, with room, before the activation. |
| Delivery.RefusedOnlyAfterRemoval | backend/src/main.rs:59-67 | An offer is dropped for lack of space only if it, or a message already in the buffer, was accepted for the device and has left its relay queue: 257 distinct messages cannot sit in a queue capped at 256. |
| Delivery.SomeoneLeft | backend/src/relay.rs:39-46 | The counting step: of 256 distinct buffered messages and one more, at least one is missing from a queue of at most 256. |
| Delivery.NothingRefusedWhileNothingLeaves | backend/src/main.rs:59-67 | Over every run: while all messages ever accepted for a device are still stored, no session of that device is refused anything. |
| Delivery.AtRestEverythingWasSent | backend/src/main.rs:178-208 | When a live session owns the device, its channel is drained, no offer is due and nothing left the relay, every stored message was itself handed to the socket, with the backlog or live. |
| Delivery.BuffersTakeTurns | backend/src/main.rs:59-78 | Every registered connection has an open channel; not ready means empty channel and at most 256 pending, ready means nothing pending and at most 256 in the channel. |
| Delivery.ActivationIsLossless | backend/src/main.rs:69-79 | In every reachable state activation sends exactly the pending messages whose id was not delivered with the backlog, in offer order. |
| Delivery.AtMostTwice | backend/src/main.rs:180-206 | Each accepted message is handed to one session at most once as backlog and at most once live, and both only if its offer took effect after activation. |
| Delivery.SentTwiceExactlyWhen | backend/src/main.rs:62-66 | A live session has written its whole backlog, and one of those messages is also in the channel or handed over live if and only if its offer is not due, found room and took effect after the activation. |
| Ordering.LiveDeliveryIsInOrder | backend/src/main.rs:59-79 | Over every run, what the live route handed to a session, then its channel, then its pending buffer is a subsequence of the offers for its device, in the order in which they took effect: first in, first out. |
| Delivery.StaleSessionIsHarmless | backend/src/main.rs:54-74 | No step of a replaced session, from the pull of its backlog to its close, changes any registered connection, its channel or its session. |
| Limits.MessageCanBeSentTwice | backend/src/main.rs:99-100 | For every acceptable message there is a run that hands it to one session twice. |
| Limits.ReacceptedMessageCanBeSuppressed | backend/src/main.rs:73-77 | For every acceptable message there is a run after which its second acceptance is stored, not due, not buffered, not refused and not sent. |
| Limits.OlderConnectionCanWin | backend/src/main.rs:47-50 | Ids are taken before the lock, so the entry of a device can hold the older of two connections. |
| Replacement.RegisterIsNewestExactlyWhen | backend/src/main.rs:46-52 | After any run, registering a connection leaves the device with its newest registered connection if and only if every session of the device with a later id is not registered yet. |
| Replacement.EntryIsAlwaysNewestExactlyWhen | backend/src/main.rs:46-57 | The entry of a device holds the newest registered connection at every point of a run if and only if the connections of the device registered in the order of their ids. |
| Replacement.RunKeepsTracked | backend/src/main.rs:46-57 | After every run the entry of a device, if any, holds the connection that registered last. |
| Lifecycle.EntryHoldsExactlyWhen | backend/src/main.rs:46-57 | After every run the entry of a device holds a session if and only if that session registered last for the device and has not left since. |
| Lifecycle.LeavingMeans | backend/src/main.rs:54-57 | A registered session that ends is over: the entry goes exactly if it was its own; all other entries, all channels, all other sessions, the flight and the relay stay as they are. |
| Progress.SessionCanComplete | backend/src/main.rs:178-186 | From every reachable state a session that has its id can, by its own steps, register, hand exactly the messages its pull answers to the socket in order, and go live with empty buffers. |
| Progress.ChannelCanDrain | backend/src/main.rs:201-204 | A live session can hand its whole channel to the socket, in order; nothing else changes. |
| Progress.SessionCanEnd | backend/src/main.rs:54-57 | A registered session can always end: closed, its channel gone, no entry left to it, all others untouched. |
| Progress.ReplacedSessionEnds | backend/src/main.rs:69-72 | A session that lost its entry while it wrote its backlog ends at its activation, and changes nothing else. |
| Progress.OfferSettles | backend/src/main.rs:59-67 | Every offer is made once, and changes nothing else when the device has no connection. |
| GatewayRuns.RunKeepsInv | backend/src/main.rs:167-209 | The invariant of relay, flight, registry and every session holds after every interleaving of pushes, offers, acks, polls and session steps. |
| GatewayRuns.StepKeepsInv | backend/src/main.rs:46-80 | Each single step keeps that invariant. |
| Delivery.StepRelay | backend/src/main.rs:99-181 | A push, an acknowledgement, a poll and a session's pull act on the relay as the store does; no other step touches it. |
| GatewayRuns.PushKeepsGateway | backend/src/main.rs:99 | The invariant of relay, flight, registry and every session survives a push, whatever its result. |
| GatewayRuns.OfferKeepsGateway | backend/src/main.rs:59-67 | The invariant of relay, flight, registry and every session survives an offer. |
| GatewayRuns.OfferOwnView | backend/src/main.rs:59-67 | An offer moves the message from flight into the one buffer in use of the owner, or marks it refused exactly when that buffer holds 256. |
| GatewayRuns.OfferOtherView | backend/src/main.rs:59-67 | An offer changes nothing of a session that does not own the entry of its device. |
| GatewayRuns.RegisterKeepsGateway | backend/src/main.rs:46-52 | The invariant of relay, flight, registry and every session survives a registration. |
| GatewayRuns.RegisterViews | backend/src/main.rs:46-52 | The new connection starts empty and not ready; a replaced session loses its entry and pending buffer and keeps its channel; other sessions are unchanged. |
| GatewayRuns.PullKeepsGateway | backend/src/main.rs:180-181 | The invariant of relay, flight, registry and every session survives the pull of a backlog; the invariant asks that the snapshot accounts for the whole relay queue. |
| GatewayRuns.ActivateKeepsGateway | backend/src/main.rs:69-79 | The invariant of relay, flight, registry and every session survives an activation, of an owner or of a session that lost its entry. |
| GatewayRuns.ActivateMeans | backend/src/main.rs:69-79 | Activating an owner moves exactly the undelivered pending messages into its channel and makes it ready. |
| GatewayRuns.ReceiveKeepsGateway | backend/src/main.rs:201-204 | The invariant of relay, flight, registry and every session survives a receive. |
| GatewayRuns.LeaveKeepsGateway | backend/src/main.rs:54-57 | The invariant of relay, flight, registry and every session survives an unregistration. |
| GatewayRuns.LeavingViews | backend/src/main.rs:54-57 | In terms of views, a session that leaves loses its entry and pending buffer, keeps its channel, and no other view changes. |
| Connections.ActivationLosesNothing | backend/src/main.rs:69-79 | From an empty channel and at most 256 pending, the flush loop drops nothing but delivered ids. |
| Connections.ConnectionRegistry.Register | backend/src/main.rs:46-52 | The new registry: a not-ready connection with empty buffer and channel replaces the device's entry. |
| Connections.ConnectionRegistry.Unregister | backend/src/main.rs:54-57 | Removes the entry exactly if it still carries the given id. |
| Connections.ConnectionRegistry.TrySend | backend/src/main.rs:59-67 | Buffers, sends or drops according to readiness and capacity. |
| Connections.ConnectionRegistry.Activate | backend/src/main.rs:69-79 | Answers whether the id still owns the entry; the loop flushes pending messages into the bounded channel. |
| Connections.ConnectionRegistry.TakeId | backend/src/main.rs:47 | The id handed out is in no entry and no channel, and later ids are larger. |
| RelayStore.RelayStore.Push | backend/src/relay.rs:27-54 | Keeps the cached totals equal to the sums over all queues and has the result and state of the store without caches. |
| RelayAnswers.PushAnswersExactlyWhen | backend/src/relay.rs:27-54 | After every run: `Invalid` if and only if the fields or the time are out of bounds, `Duplicate` if and only if an unexpired waiting message of the recipient has the id, `Full` if and only if there are 256 of those or a global limit is reached, `Accepted` in every other case. |
| RelayAnswers.PushLeaves | backend/src/relay.rs:33-51 | What a push leaves in the queue: without expired messages, with an accepted one at the end for seven days; nothing changes if the checks fail. |
| RelayAnswers.AckAnswersExactlyWhen | backend/src/relay.rs:68-82 | An acknowledgement answers true if and only if a message with that id is waiting. |
| RelayAnswers.EmptyQueuesGo | backend/src/relay.rs:64-81 | A queue that a pull or an acknowledgement empties leaves the map. |
| RelayStore.RelayStore.Pull | backend/src/relay.rs:56-66 | Same, with the unexpired messages of the device in order; an empty queue is dropped. |
| RelayStore.RelayStore.Ack | backend/src/relay.rs:68-83 | Same; subtracting one message and one size is right because ids are distinct in a queue. |
| RelayStore.RelayStore.TakePruned | backend/src/relay.rs:35-38 | The saturating subtractions of the totals are exact. |
| RelayStore.RemoveExpired | backend/src/relay.rs:86-93 | Keeps the unexpired entries in order and counts the removed messages and bytes exactly. |
| RelayStore.RemoveId | backend/src/relay.rs:72-76 | Removes at most one entry and reports its size. |
| RelayStore.AccountedSize | backend/src/relay.rs:95-97 | The accounted size is the length of the message's encoding. |
| Relay.WithoutRemovesOne | backend/src/relay.rs:73-80 | Removing an id from a queue with distinct ids removes one entry and its size, or nothing. |
| Relay.PushKeepsInv | backend/src/relay.rs:27-54 | Distinct ids, acceptance order, 256 per device and both global limits survive every push at any clock reading. |
| Relay.PullKeepsInv | backend/src/relay.rs:56-66 | They survive every pull. |
| Relay.AckKeepsInv | backend/src/relay.rs:68-83 | They survive every acknowledgement. |
| RelayRuns.RunKeepsInv | backend/src/relay.rs:27-83 | All limits hold after every run with arbitrary clock readings. |
| RelayRuns.AcceptedIsStoredAckedOrExpired | backend/src/relay.rs:27-93 | Conservation over every run: accepted messages = stored + acknowledged + expired. |
| RelayRuns.PullReturnsTheLog | backend/src/relay.rs:56-66 | With arbitrary clock readings, `pull` answers in acceptance order what the log says is waiting and not expired by its own reading. |
| RelayRuns.PullReturnsTheLive | backend/src/relay.rs:56-66 | If no earlier look at the device used a later reading, `pull` answers exactly the messages accepted for it, not expired and not acknowledged since. |
| RelayRuns.PullMissesExactlyWhen | backend/src/relay.rs:27-66 | A pull misses an accepted, unacknowledged message that is alive by its own reading if and only if, after its acceptance, a pull or checked push of the device used a reading at or after its expiry. |
| RelayRuns.PullUnderMonotoneReadings | backend/src/relay.rs:56-66 | In particular when readings never decrease in the order in which the lock is taken. |
| RelayRuns.QueueRefinesLog | backend/src/relay.rs:27-93 | With arbitrary clock readings, each queue equals what the event log of acceptances, acknowledgements and looks says is waiting, in acceptance order. |
| RelayRuns.WaitingMeaning | backend/src/relay.rs:27-93 | Waiting means accepted for the device, and since then neither acknowledged nor looked at by a pull or a checked push whose reading is at or after its expiry. |
| RelayRuns.LiveInMeaning | backend/src/relay.rs:27-83 | Live in the log means accepted for the device, not expired, and not acknowledged since that acceptance. |
| Receive.ReceiveRatchet.KeyFor | core/ratchet/src/receive.rs:84-95 | The loop computes the specified keys and state within 257 chain steps for every target. |
| Receive.ReceiveRatchet.Decrypt | core/ratchet/src/receive.rs:102-108 | Works on a copy; a failed attempt leaves the ratchet unchanged. |
| Receive.ReceiveRatchet.DecryptWithHeader | core/ratchet/src/receive.rs:97-100 | A malformed header is reported and consumes nothing. |
| Ratchet.RatchetState.NextMessageKey | core/ratchet/src/lib.rs:60-75 | One chain step; the chain key is replaced even when the counter overflows. |
| Ratchet.RatchetState.Encrypt | core/ratchet/src/lib.rs:77-89 | One chain step and a packet of nonce and sealed text. |
| Ratchet.SealedPacketOpens | core/ratchet/src/lib.rs:91-107 | Packet n opens under message key n to the sent text. |
| Ratchet.MessageKeysDiffer | core/ratchet/src/lib.rs:60-75 | With a collision-free HKDF, two message keys are equal if and only if root and counter are. |
| Ratchet.ChainKeysDiffer | core/ratchet/src/lib.rs:60-75 | With a collision-free HKDF no chain key comes back: each position of each chain has its own. |
| Ratchet.ExhaustedSenderMovesOn | core/ratchet/src/lib.rs:72-73 | After the last counter every call fails, and still moves the chain key on, to one that no chain has at any position. |
| ReceiveRuns.AdvanceCollects | core/ratchet/src/receive.rs:88-94 | Advancing stores the right key for each counter passed over and returns the target's key; only the last 64-bit counter fails. |
| ReceiveRuns.StepRefines | core/ratchet/src/receive.rs:84-108 | One decrypt attempt refines the simple receiver that only knows the used counters. |
| ReceiveRuns.RunRefines | core/ratchet/src/receive.rs:84-108 | So does every run of successful and failed attempts. |
| ReceiveRuns.DecryptsExactlyWhen | core/ratchet/src/receive.rs:84-108 | After any run a packet decrypts, to what the cipher gives for its first 12 bytes and the rest, if and only if its counter is unused, at most 256 past the expected one, not 2^64-1, and the cipher opens it under the key of that counter; replay and too far ahead are reported exactly for such counters; failure changes nothing. |
| ReceiveRuns.SkippedPlusUsed | core/ratchet/src/receive.rs:84-95 | Skipped keys are exactly the unused counters below the expected one, each with its own key; skipped + used = expected. |
| ReceiveRuns.SameCountersSameState | core/ratchet/src/receive.rs:84-108 | Runs that use the same counters end in equal receivers. |
| ReceiveRuns.SenderProduces | core/ratchet/src/lib.rs:77-89 | The sender's n-th call yields the nonce and what the cipher opens under message key n to the text of that call. |
| ReceiveRuns.EachMessageOnce | core/ratchet/src/receive.rs:102-108 | In every delivery order without a jump beyond 256, each packet decrypts to the sent text on first delivery and is a replay afterwards. |
| ReceiveRuns.OrderDoesNotMatter | core/ratchet/src/receive.rs:84-108 | The final receiver depends only on which packets arrived. |
| ReceiveLimits.SkippedKeysCanExceedASnapshot | core/ratchet/src/receive.rs:40-87 | Two jumps leave 512 skipped keys, and the snapshot is refused. |
| ReceiveLimits.RestoreAcceptsUnreachableReceivers | core/ratchet/src/receive.rs:70-81 | A snapshot with a counter above the chain restores, although no run reaches that receiver. |
| Reachable.ReachableExactlyWhen | core/ratchet/src/receive.rs:84-108 | A receiver is reached by some run from a root if and only if its chain key and skipped keys are those of the root below its counter, the newest counter passed over is used, and no 257 counters in a row are skipped. |
| Reachable.RestoredIsReachableExactlyWhen | core/ratchet/src/receive.rs:56-82 | What a snapshot restores to is reached by some run from a root if and only if its keys are those of the root below its counter and the newest counter passed over is used. |
| Snapshot.TakeSnapshot | core/ratchet/src/receive.rs:39-54 | The loop writes header and entries in ascending counter order. |
| Snapshot.RestoreSnapshot | core/ratchet/src/receive.rs:56-82 | The checks and the entry loop accept, reject and rebuild as specified. |
| Snapshot.RestoresExactlyWhen | core/ratchet/src/receive.rs:56-82 | A byte string restores if and only if mark, version, chain counter, entry count and length are right and no entry counter occurs twice; the receiver has exactly that chain and those entries. |
| Snapshot.RestoreInvertsSave | core/ratchet/src/receive.rs:39-82 | A snapshot exists exactly up to 256 skipped keys and restores to the same receiver, except at counter 2^64-1. |
| Snapshot.RestartIsIdentityExactlyWhen | core/ratchet/src/receive.rs:39-82 | A restart changes nothing if and only if the chain is not exhausted or the snapshot is refused. |
| Reachable.ExhaustedReceiverIsLost | core/ratchet/src/receive.rs:39-82 | Some run of packets reaches a receiver that a restart loses. |
| Snapshot.RestartsAreInvisible | core/ratchet/src/receive.rs:39-82 | From a chain that is not exhausted, and while message 2^64-2 is never delivered, restarts inserted anywhere change no answer and no final state. |
| Snapshot.RestartsAreInvisibleExactlyWhen | core/ratchet/src/receive.rs:39-82 | For every receiver and run, restarts change no answer and no final state if and only if none of them meets an exhausted chain with at most 256 skipped keys. |
| EndToEnd.RatchetSurvivesACrash | core/storage/src/lib.rs:283-308 | Wherever a save of a ratchet snapshot stops, the next start gets the previous state or this very receiver. |
| DeviceRuns.RestartGivesLastCommitted | core/storage/src/lib.rs:283-308 | Over every run of deliveries, saves stopped anywhere and restarts, a restart gives the receiver of the last committed save, or the fresh one if there is none; only a receiver saved with an exhausted chain does not come back. |
| DeviceRuns.AnsweredAgainExactlyWhen | core/storage/src/lib.rs:283-308 | An answered packet whose counter was not answered again since is answered again if and only if some restart came before every save committed after the first answer, and the receiver that came back reaches that far. |
| DeviceRuns.DeviceRemembers | core/storage/src/lib.rs:283-308 | After every run the counters used in the receiver in memory, and in the last committed one, are those the history of answers, commits and restarts says. |
| EndToEnd.RelayedMessagesReachTheWire | backend/src/main.rs:254-259 | Every message the relay accepts encodes to 82 + header + ciphertext bytes, fits one frame, and the frame decodes to the same message. |
| AuthRuns.AtMost720LiveNonces | backend/src/auth.rs:78-102 | Under a monotone clock a device never has more than 720 unexpired nonces. |
| AuthRuns.NoLiveNonceEvicted | backend/src/auth.rs:98-102 | The capacity eviction never fires on a live nonce: acceptance only appends. |
| AuthRuns.LiveBound | backend/src/auth.rs:87-96 | Six windows of 120 requests cover the five-minute life of a nonce. |
| AuthRuns.SparseNewWindow | backend/src/auth.rs:88-91 | The rate bound carries over when a new window starts. |
| AuthRuns.RunKeepsInv | backend/src/auth.rs:75-103 | The rate bound holds for every device after every run. |
| AuthRuns.LiveNonceIsRefused | backend/src/auth.rs:78-85 | While the nonce of an accepted request lives, every request of the device with that nonce is refused in every continuation. |
| AuthRuns.ReplayableExactlyWhen | backend/src/auth.rs:62-103 | When no request waits longer than `lag` between the clock reading at line 62 and the instant at line 76: an accepted request can be accepted again in some continuation if and only if its timestamp plus `lag` is not earlier than the instant of that acceptance (and the clock does not end first). |
| AuthRuns.ReplayableWithoutWaiting | backend/src/auth.rs:62-103 | Without waiting, on one clock: if and only if its timestamp is not earlier than its acceptance. |
| Auth.AuthState.Authenticate | backend/src/auth.rs:57-103 | Checks in order, then pruning, replay check, lazy window, count and bounded queue, with the exact new state. |
| AuthAnswers.AcceptedExactlyWhen | backend/src/auth.rs:57-103 | After every run under a monotone clock: accepted if and only if the key belongs to the device and is valid, the timestamp is within five minutes, the signature verifies, the nonce was not accepted in the last five minutes, and the current window has fewer than 120 acceptances; otherwise the first failing check is the answer. |
| AuthAnswers.RunFollows | backend/src/auth.rs:78-102 | After every run the queues and windows are those of the history of acceptances. |
| Auth.SigningBytesBind | backend/src/auth.rs:117-140 | Within the length fields, equal signed bytes mean equal method, path, device, key, timestamp, nonce and body hash. |
| Auth.SigningFields | backend/src/auth.rs:117-140 | Where domain, lengths, method and path lie in the signed bytes. |
| Bundle.Validate | core/protocol/src/lib.rs:41-54 | The loop with its set reports the first fault. |
| Bundle.ValidMeansWellFormed | core/protocol/src/lib.rs:41-54 | No fault if and only if the bundle is well formed: version, non-zero keys, at most 1024 one-time prekeys, distinct ids. |
| Prekeys.PreKeyRegistry.Publish | backend/src/prekeys.rs:114-124 | Validation, revocation and generation checks, then replacement of the publication only. |
| Prekeys.PreKeyRegistry.Revoke | backend/src/prekeys.rs:134-141 | Revokes only the current generation, once. |
| Prekeys.PreKeyRegistry.GetActive | backend/src/prekeys.rs:143-148 | Shows the publication exactly if it is neither revoked nor expired. |
| Prekeys.PreKeyRegistry.ClaimOpk | backend/src/prekeys.rs:150-182 | Check order, idempotent answer, and the two maps updated together. |
| PrekeyAnswers.PublishedExactlyWhen | backend/src/prekeys.rs:50-124 | Over every run: published if and only if well formed, its own device's, in time, for at most 30 days, both signatures verify, the device was never revoked and the generation is above the last accepted one. |
| PrekeyAnswers.RevokedExactlyWhen | backend/src/prekeys.rs:134-141 | Revoked if and only if not revoked before and the generation is the last accepted one. |
| PrekeyAnswers.ShownExactlyWhen | backend/src/prekeys.rs:143-148 | Shows the last accepted publication if and only if it is not expired and the device was not revoked. |
| PrekeyAnswers.GrantedExactlyWhen | backend/src/prekeys.rs:150-182 | Over every run: a claim is granted, with the published key, if and only if the publication of its generation is shown and offers the key id, no other request was granted the key, and the request no other key. |
| PrekeyRuns.RunKeepsInv | backend/src/prekeys.rs:113-182 | Over every run claims and requests are mutually inverse, generations of accepted publications strictly increase, and each claim comes from an accepted publication. |
| PrekeyRuns.OnePublicationPerGeneration | backend/src/prekeys.rs:119-123 | At most one publication is ever accepted per device and generation. |
| PrekeyRuns.OneWinnerPerKey | backend/src/prekeys.rs:161-165 | All successful answers for one recipient, generation and key id are the same claim. |
| PrekeyRuns.OneKeyPerRequest | backend/src/prekeys.rs:167-168 | One request id of one claimant obtains at most one key, ever. |
| PrekeyRuns.RetryIsIdempotent | backend/src/prekeys.rs:150-165 | A repeated request gets the same claim if and only if the publication is not revoked, not replaced and not expired; otherwise it is refused as not found or stale. |
| PrekeyRuns.ClaimedKeyIsThePublishedOne | backend/src/prekeys.rs:170-178 | A claimed key is the only entry with its id in the only publication of its generation. |
| PrekeyRuns.RevocationIsFinal | backend/src/prekeys.rs:118-157 | After a revocation no continuation publishes, shows, claims or revokes again for that device. |
| SignedPrekeys.SignedPrekeyStore.Rotate | core/identity/src/prekeys.rs:43-54 | Prunes first, even when it then fails; retires the current key with its expiry. |
| SignedPrekeys.RotatesExactlyWhen | core/identity/src/prekeys.rs:43-54 | Succeeds if and only if the new id opens no session, the clock is not behind, fewer than two retired keys are usable and the grace fits; then the new id opens sessions with the new key and all other keys as before. |
| SignedPrekeys.SignedPrekeyStore.WithKey | core/identity/src/prekeys.rs:36-42 | Finds the current key or an unexpired retired one. |
| SignedPrekeys.SignedPrekeyStore.Prune | core/identity/src/prekeys.rs:55 | Removes exactly the expired retired keys and counts them. |
| SignedPrekeys.RunKeepsInv | core/identity/src/prekeys.rs:43-55 | Never more than two retired keys and never one id twice. |
| SignedPrekeys.GracePeriodIsExact | core/identity/src/prekeys.rs:36-55 | Whatever is rotated and pruned meanwhile, a retired key opens sessions before its expiry, and not after it unless its id is issued again. |
| SignedPrekeys.OutgoingKeyHasItsGrace | core/identity/src/prekeys.rs:43-54 | After a rotation the outgoing key works until the end of its grace period, and not after it unless its id is issued again. |
| SignedPrekeys.NoReissueDuringGrace | core/identity/src/prekeys.rs:46 | A retired id cannot be issued again before it expires. |
| Session.BothSidesAgree | core/session/src/lib.rs:31-62 | With a bundle of the responder's public keys, both sides succeed with the same root and one-time prekey id, or both reject a zero shared secret. |
| Session.InitiateSucceedsExactlyWhen | core/session/src/lib.rs:31-45 | An initiator succeeds if and only if bundle and record pass every check, offer the chosen one-time prekey, and no shared secret is zero; the root is HKDF of the 32-byte secrets in order, under version, both device ids and the ephemeral key. |
| Session.RespondSucceedsExactlyWhen | core/session/src/lib.rs:58-62 | A responder succeeds if and only if no shared secret is zero, with the root of its secrets. |
| Session.RootBindsTheHandshake | core/session/src/lib.rs:62 | With a collision-free HKDF, equal roots mean the same secrets, the same devices in the same roles and the same ephemeral key. |
| Session.RespondedExactlyWhen | core/session/src/lib.rs:50-55 | The responder with a store succeeds if and only if the chosen key is stored and matches and no secret is zero; the key leaves the store then and only then. |
| Session.IkmNotZero | core/session/src/lib.rs:62 | The all-zero check on the key material cannot fire after the zero-secret checks. |
| Session.OneTimePrekeyStore.RespondWithStore | core/session/src/lib.rs:50-55 | The one-time prekey leaves the store exactly with a successful session. |
| Session.OneTimePrekeyStore.TakeMatching | core/identity/src/prekeys.rs:66 | Takes the key only if its public half is the expected one. |
| Session.OneTimePrekeyStore.Take | core/identity/src/prekeys.rs:65 | Takes the key if it is held, and leaves the others. |
| Session.OneTimePrekeyStore.Insert | core/identity/src/prekeys.rs:64 | Refuses an id that is already stored. |
| Session.EachKeyEstablishesOnce | core/identity/src/prekeys.rs:64-67 | Over every run of insert, take, matching take and establish: times stored = sessions established with the key + times taken + 1 if still held. |
| Session.HeldKeyWasStored | core/identity/src/prekeys.rs:64-67 | A held key is the one that was stored under its id. |
| Session.UsedKeyIsGone | core/session/src/lib.rs:50-55 | A second establishment with a used key is refused as not found. |
| Journal.EncryptedJournal.Save | core/storage/src/lib.rs:133-152 | The directory after the save, for a process stopped between any two file operations. |
| Journal.EncryptedJournal.Load | core/storage/src/lib.rs:156-169 | Answers the intact record of the highest generation under its own generation, or that there is none. |
| Journal.LoadIsUnique | core/storage/src/lib.rs:156-169 | A directory has only one such answer. |
| Journal.EncryptedJournal.Generations | core/storage/src/lib.rs:105-115 | Collects exactly the generations that file names parse to. |
| Journal.RecordIsBoundToGeneration | core/storage/src/lib.rs:117-131 | A sealed record reads back under its own generation and no other. |
| Journal.ReadsExactlyWhen | core/storage/src/lib.rs:117-169 | A record reads as a text under a generation if and only if it has version 1 and the cipher opens it to the mark, that generation and the text. |
| JournalRuns.SaveIsCrashSafe | core/storage/src/lib.rs:133-152 | From every directory and stopping point, `load` answers the same as before, or the new record if and only if the rename happened. |
| JournalRuns.SaveSucceedsExactlyWhen | core/storage/src/lib.rs:133-152 | At every point of every run a save that is not stopped succeeds if and only if a next generation exists and no earlier save of the run stopped between creating and renaming its file. |
| JournalRuns.LeftoverBlocksSaving | core/storage/src/lib.rs:144-149 | After a save that stopped midway, every later save of the run leaves the directory as it is and writes no record. |
| JournalRuns.LoadFindsNewestInPlace | core/storage/src/lib.rs:156-169 | After every run of saves, crashes, corruptions and swaps, `load` answers exactly the newest record still in its own file. |
| JournalRuns.GenerationsIncrease | core/storage/src/lib.rs:134-138 | Later written records of a run have higher generations. |
| JournalNames.ParseInvertsFinalName | core/storage/src/lib.rs:91-103 | Parsing inverts naming for every 64-bit generation. |
| JournalNames.JournalsDoNotInterfere | core/storage/src/lib.rs:91-115 | With different prefixes neither journal parses or names the other's final or temporary files. |
| Protocol.Encode | core/protocol/src/lib.rs:96-103 | The buffer built is the wire image, 82 bytes longer than header and ciphertext, or a length overflow. |
| Protocol.DecodeMessage | core/protocol/src/lib.rs:104-122 | The cursor readers compute the offset-based decoder on every byte string, errors included. |
| Protocol.DecodeInvertsWire | core/protocol/src/lib.rs:96-110 | Decoding an encoded message gives it back; anything after it is reported as trailing. |
| Protocol.MessageCodecIsExact | core/protocol/src/lib.rs:96-110 | A byte string decodes to a message if and only if it is that message's encoding. |
| Protocol.HeaderCodecIsExact | core/protocol/src/lib.rs:66-74 | A counter has exactly one accepted ratchet header. |
| Transport.ToBytes | core/transport/src/lib.rs:108-120 | Encodes exactly the valid frames, header first. |
| Transport.FrameCodecIsExact | core/transport/src/lib.rs:90-150 | A byte string decodes to a frame if and only if the frame is valid and encodes to it. |
| Transport.AcceptedExactlyWhen | core/transport/src/lib.rs:90-150 | Accepted if and only if version 1, one of the eight kinds, and an announced length of 1 byte to 16 MiB that is the length of the rest. |
| Transport.BuildsExactlyWhen | core/transport/src/lib.rs:68-84 | A frame is built if and only if the payload has 1 byte to 16 MiB, and carries kind, flags and payload. |
| Transport.NewFramesRoundTrip | core/transport/src/lib.rs:68-84 | Every frame that can be built survives the wire with its kind. |

## Left out

- Connections.ConnectionRegistry.TakeId: does not model the wrap-around of the 64-bit id counter, which 2^64 connections would take to reach.
- Auth.AuthState.Authenticate: starts from parsed headers; hexadecimal and number parsing of headers is not modelled, and instants do not overflow.
- Ratchet.RatchetState.Encrypt: does not model the cipher's refusal of texts beyond its own length limit.
- Journal.EncryptedJournal.Save: does not model input/output errors other than an existing temporary file; a rename that a power loss undoes equals stopping before it.
- Session.BothSidesAgree: does not cover the signed session-init record, which neither root depends on.
- SignedPrekeys.SignedPrekeyStore.Rotate: does not carry the signed record that is published with each key.
- HKDF, ChaCha20-Poly1305, X25519, Ed25519, SHA-256, randomness and zeroisation are library code; only the laws named above are used.
- HTTP routing, status codes, JSON, environment variables, timers and socket framing below one message are plumbing around the modelled steps.
- Lock poisoning and cancelled tasks are not modelled: a session always runs one of its exits.
- The envelope crate relies on a codec that is not part of this model.
- The Diffie-Hellman ratchet, the crypto boundary and the outbound queue are single library calls or one bounded queue, so they would only add easy members.
- The wallet, the mobile apps and the documents hold no logic to model.
