# A verified model of the tenet tunnel

The Go project tenet connects peers by an encrypted tunnel. A payload given to `Send` is prefixed with its
channel hash, cut into frames, encrypted frame by frame under a Noise session with an implicit nonce, wrapped in
`TENT` packets and framed for TCP; the receiver undoes all of this and calls `onReceive`. Around that path the
node keeps handshakes, peer tables, re-handshake recovery for desynchronised sessions, reconnection of lost peers,
discovery of further peers and relaying. This project models that logic in Dafny and proves what it keeps over
whole runs. Everything below is established by the verifier alone; nothing was executed.

The objects the source updates in place (`Session`, `HandshakeState`, `Peer`, the node, the reconnect manager, the
discovery throttle, the relay and the node's tables) are classes. Each method is proved equal to a function on
values, and the theorems about runs are about those functions.

| module | part of the system |
|---|---|
| `Base`, `Noise` | bytes, 64-bit wrap-around, big-endian fields; the AEAD interface and sessions |
| `Handshake`, `HandshakeRuns` | the three-message XX handshake behind `ProcessMessage`, and many of them at once |
| `Fragmentation`, `Receiver`, `AppFrames` | frames, reassembly, the receive path, application frames |
| `Framing` | packets and the TCP stream |
| `Peers`, `Nodes` | the mutable peer and the node's data path |
| `Network`, `NetworkDelivers` | one direction of a tunnel over a network that drops, repeats, reorders and injects, and what it can let through |
| `EndToEnd`, `Tunnel` | `Send` to `onReceive` over an intact stream, on values and on two node objects |
| `Recovery`, `RecoveryRuns`, `Desync` | the re-handshake gate, its runs, and what a lost frame leads to |
| `Channels` | channel subscriptions and their hash index |
| `Reconnect` | the reconnect manager and its delays |
| `DiscoveryCodec`, `Discovery` | the peer-list format and the connect throttle |
| `RelayAuth`, `Relay` | relay tokens and two-hop relaying |
| `Tables` | the peer store and the address table |

## What the cryptography is assumed to do

The AEAD is a parameter. `Noise.Correct` says that a ciphertext opens to its plaintext under its own key and nonce;
`Noise.Ideal` adds that it opens under no other. `Noise.SymbolicIsIdeal` gives an instance, so the laws are not
contradictory. The lossy-network results use `Ideal`, the intact-stream results only `Correct` and the 16-byte tag.
Two conditions are built into the steps of `Network`: a packet the network makes up by itself opens under no tunnel key
(`Network.Unforgeable`), and a session is installed with keys not used before in their direction
(`Network.FreshSend`, `Network.FreshRecv`). The second is what `HandshakeRuns.SessionKeysFresh` proves of the
sessions handshakes hand out, from fresh contributions and a key split that keeps transcripts apart. The handshake
is symbolic: a message after the first is bound to everything exchanged before it and to the network secret, so the
network cannot make one up. The channel hash, the relay MAC and the key split are parameters too. Clocks, random
draws, write failures and the results of `ConnectContext` are inputs.

## What turned out different from what one would expect

- The re-handshake limiter uses fixed windows. The documented limit per window is a bound of `2 * limit - 1` over a
  sliding interval of the same length, and that bound is reached (`RecoveryRuns.SlidingWindow`,
  `RecoveryRuns.SlidingWindowIsTight`).
- The re-handshake backoff is `min(base * 2^(k-1), max)` for every `k` exactly when the cap is below 2^62 ns or
  equals the base; validation accepts larger caps, with which the doubling overflows (`Recovery.BackoffLaw`).
- The constant-time channel index agrees with the list of names in all runs exactly when the hash is injective on
  the names used (`Channels.AgreementIffInjective`).
- A packet list survives TCP framing exactly when every packet has 1 to 65535 bytes (`Framing.FramingRoundTrip`);
  a peer list survives the discovery format exactly when all strings fit 255 bytes and there are fewer than 65536
  entries (`DiscoveryCodec.CodecRoundTrip`); a token survives its format exactly when its signature has at most 255
  bytes (`RelayAuth.TokenRoundTrip`).
- A known peer that completes a handshake from a new address without moving to TCP by it, over UDP again or from TCP
  over a new TCP connection, has the address recorded in its link but not in the address table, so data from there
  is not attributed to it (`Tables.SessionMapsAddress` for the exact condition, `Tables.MovedPeerUnmapped` for the
  failing families). A TCP peer that re-handshakes over another transport keeps its old link.
- The wait a refused re-handshake is told can be too short: it speaks of the backoff only, and when the window is full
  beyond that the gate refuses again (`Recovery.WaitIsLeast` for the exact condition, `Recovery.WaitTooShort` for
  the failing family).
- A failed trigger does not quiet a desynchronised peer: from the threshold on, every further undecryptable packet
  triggers again until one is admitted (`Desync.LossIsDetected`).
- A relay token dated exactly 2^63 seconds before the verifier's clock passes the lifetime test, because its age
  overflows (`RelayAuth.AgeLaw`).
- `UpgradeTransport` leaves fragments of the old session in the reassembly buffer. They never reach the application
  (`Network.NoMixing`).

## Model

| member | source | states |
|---|---|---|
| `Network.NoMixing` | node/node_channel.go:231-317 | In every run of sends, aborts, session replacements and closings on both sides and hostile network steps, each payload passed to handleAppFrame is the whole payload of one sendAppFrame call, no call is delivered twice, and calls under one key arrive in sending order |
| `Network.PrefixDelivery` | crypto/noise.go:229-261 | In every run the plaintexts a receive session opened are a prefix of the frames encrypted under its key, it handed on exactly the deliverable messages that prefix completes, in order and once each, and the whole trace is these deliveries one session after the other |
| `Network.CompletedExactly` | node/data_flow.go:49-72 | From any buffer, any prefix of the frames of any list of complete and aborted calls completes exactly the payloads of the complete calls within the limit that lie in the prefix |
| `Network.RunKeepsInv` | node/data_flow.go:19-72 | Every step keeps nonces, buffer, packets in flight and delivery history consistent with what was encrypted |
| `Network.GrowthKeepsHistory` | node/node_channel.go:269-290 | A further frame under one key changes nothing that was opened before and keeps every packet in flight authentic |
| `Network.EpochGrows` | node/data_flow.go:36-72 | Opening the next frame extends the opened prefix by one and delivers exactly what that frame completes |
| `NetworkDelivers.NetworkLetsThrough` | node/node_channel.go:231-317 | After any run, over a session installed at both ends, some behaviour of the network delivers every list of payloads in order, without those over the limit |
| `NetworkDelivers.Powers` | peer/peer.go:158-198 | In every state replacing or closing the receive session keeps what was collected, an abort frees the send lock, packets that open under no key can be injected and any packet can be delivered again and again |
| `EndToEnd.SendReachesOnReceive` | node/node_channel.go:175-219 | For every list of Send calls over an intact TCP stream, onReceive is called with exactly the sent data in order, restricted to channels both ends subscribe to and messages within the reassembly limit |
| `Tunnel.Transfer` | node/node_channel.go:175-318 | On two node objects: after the sender's Send calls and the receiver's reading of the stream, the receiver's onReceive trace has grown by exactly the sent data on channels both subscribe to and within the limit, in order |
| `Tunnel.SendAll` | node/node_channel.go:209-318 | A list of Send calls over a connection that takes every write puts on the stream exactly the framed packets of the accepted payloads, nonce after nonce |
| `Tunnel.ReceiveStream` | node/tcp_io.go:69-115 | Reading a stream and processing its data packets leaves the peer and the onReceive trace as the value-level receive path does on all of them |
| `EndToEnd.PayloadsAcrossStream` | node/tcp_io.go:69-115 | Every list of payloads sent on a session comes out of the stream as the same list without those over the limit, whatever was in the receiver's buffer; both ends stay in step and the buffer ends empty |
| `EndToEnd.PacketShape` | node/node_channel.go:269-317 | One call makes ceil(len / MaxPayloadSize) packets, each small enough for the two-byte TCP length |
| `EndToEnd.ReceiveSealed` | node/data_flow.go:19-72 | In sync, frames sealed in order are all opened and drive reassembly as if they had not been encrypted |
| `Fragmentation.FragmentsShape` | node/node_channel.go:292-317 | The frames of a payload are ceil(len / MaxPayloadSize) non-empty pieces within the size bound that concatenate to it, with exactly the first starting and exactly the last ending a message |
| `Fragmentation.FragmentRoundTrip` | peer/peer.go:97-155 | From every reassembly state the frames of a payload deliver exactly that payload if it fits the limit and nothing otherwise, and leave the buffer empty |
| `Fragmentation.TruncatedDeliversNothing` | peer/peer.go:112-146 | A proper prefix of the frames of a payload delivers nothing from any reassembly state |
| `Fragmentation.FeedTail` | peer/peer.go:112-146 | With a message open, the later frames complete the collected bytes plus the rest, or nothing when that exceeds the limit |
| `Fragmentation.FeedOrphanTail` | peer/peer.go:112-146 | Without an open message the later frames are dropped and leave nothing behind |
| `Receiver.OtherPlaintextsAbsorbed` | node/data_flow.go:38-72 | A plaintext that is empty or of an unknown kind is absorbed and leaves a message being collected alone |
| `AppFrames.ReceivedExactly` | node/node_channel.go:175-202 | Data reaches onReceive exactly when it comes behind the hash of a subscribed channel in a user frame |
| `AppFrames.UpdateExactly` | node/node_channel.go:203-206 | A channel update is handed on exactly as it was sent, whatever the subscriptions |
| `Noise.SymbolicIsIdeal` | crypto/noise.go:229-261 | The AEAD laws the results rest on are satisfiable |
| `Noise.Session.Encrypt` | crypto/noise.go:229-244 | Seals under the current nonce and advances it, or fails on a closed session |
| `Noise.Session.Decrypt` | crypto/noise.go:247-261 | Opens under the current nonce and advances it only on success |
| `Noise.Session.Close` | crypto/noise.go:275-295 | Leaves no cipher in either direction, no remote key and no handshake hash |
| `Handshake.HandshakeState.ProcessMessage` | crypto/noise.go:114-179 | Reads, answers and completes as the symbolic exchange prescribes and hands out the keys by role; a completed state refuses everything |
| `Handshake.HandshakeState.Initiator` | crypto/noise.go:41-76 | An initiator has written the first message |
| `Handshake.HandshakeState.Responder` | crypto/noise.go:79-106 | A responder starts with nothing exchanged |
| `Handshake.AtMostOneSession` | crypto/noise.go:114-179 | Whatever messages arrive, one handshake state hands out at most one session, and none once completed |
| `Handshake.ExchangeCompletes` | crypto/noise.go:114-179 | An undisturbed exchange completes both sides in three messages with mirrored sessions |
| `HandshakeRuns.SessionsMirrored` | crypto/noise.go:114-179 | In every run of any number of handshakes over a network that redirects, repeats and drops messages and makes up first ones, each completed responder has exactly one completed initiator with the same transcript, and their sessions are mirror images |
| `HandshakeRuns.SessionKeysFresh` | crypto/noise.go:129-176 | In every such run no two sessions send under one key or receive under one key, no session sends under its own receive key, and all start at nonce zero |
| `HandshakeRuns.ExchangeGoesThrough` | crypto/noise.go:114-179 | After any run, an initiator and a responder that join complete in three deliveries with mirrored sessions |
| `HandshakeRuns.RunKeepsInv` | crypto/noise.go:114-179 | Every step keeps each party where its transcript says, the parties of a role apart by their contributions, and every third message traced to a finished initiator |
| `HandshakeRuns.SymbolicKeysApart` | crypto/noise.go:129-176 | The assumption on the derived keys is satisfiable |
| `RecoveryRuns.SlidingWindow` | peer/peer.go:484-508 | In every run at most 2 * limit - 1 attempts are admitted in any half-open interval as long as the window |
| `RecoveryRuns.SlidingWindowIsTight` | peer/peer.go:484-508 | Under every valid configuration with a window of at least two, some run admits 2 * limit - 1 attempts in such an interval |
| `RecoveryRuns.RefusalStands` | peer/peer.go:484-508 | A refusal in any reachable state names a positive wait, and no attempt is admitted by any events before it is over |
| `Recovery.AdmitsExactly` | peer/peer.go:484-508 | With nothing in flight the gate admits exactly when the backoff is over and the window is over or has room, and otherwise refuses with a positive wait |
| `Recovery.WaitIsLeast` | peer/peer.go:484-508 | Before the wait of a refusal is over the gate refuses too, and when it is over it admits exactly when the window then has room |
| `Recovery.WaitTooShort` | peer/peer.go:484-508 | With a limit of one and a base below the window, the wait after a failed attempt ends inside the full window and the gate refuses again |
| `RecoveryRuns.AttemptSpacing` | node/rehandshake.go:17-102 | In every run at most one re-handshake is in flight, and consecutive attempts are at least the base backoff apart unless the earlier one was skipped |
| `RecoveryRuns.FailuresPerAttempt` | node/data_flow.go:19-36 | In every run an event that starts an attempt ends a stretch of events with at least the threshold of packets that did not decrypt, in which none decrypted and no other attempt started |
| `RecoveryRuns.CounterMeans` | peer/peer.go:450-462 | In every run the decrypt-failure counter is the number of undecryptable packets of an uninterrupted stretch that reaches up to now |
| `RecoveryRuns.RunBackoff` | peer/peer.go:511-551 | In every run with a cap below 2^62 or equal to the base, the failure count is the number of failures in a row since the last success, skipped attempts aside, and the backoff after k of them is min(base * 2^(k-1), max), none after a success |
| `RecoveryRuns.ReportSetsNextAttempt` | peer/peer.go:511-551 | In every run a task that reports at t moves the earliest next attempt to exactly t plus the backoff of its failure, or t plus the base after a success, and leaves it alone when skipped |
| `RecoveryRuns.RunKeepsInv` | peer/peer.go:450-551 | Every event keeps limiter, tasks, spacing, backoff and failure counts consistent with the attempts so far |
| `Recovery.BackoffLaw` | peer/peer.go:511-537 | The closed form holds for every number of failures exactly when the cap is below 2^62 or equals the base |
| `Recovery.BackoffClosedForm` | peer/peer.go:511-537 | The wrapping 64-bit doubling equals the unbounded closed form under that condition |
| `Recovery.BackoffOverflows` | peer/peer.go:511-537 | For every larger cap above the base, some number of failures breaks the closed form |
| `Recovery.BackoffAtLeastBase` | peer/peer.go:511-537 | The backoff never falls below the base, overflow or not |
| `Desync.LossIsDetected` | node/data_flow.go:19-36 | Once the awaited frame does not arrive, no frame of the session decrypts, whatever the re-handshake task does meanwhile; a frame triggers a re-handshake exactly when the frames since the last admission, with it, have reached the threshold, so a trigger that was not admitted is repeated by every further frame |
| `Desync.NoLossNoFailure` | node/data_flow.go:19-36 | Without loss every frame decrypts and the recovery state stays as it was |
| `Peers.Peer.ResetReassembly` | peer/peer.go:90-94 | Empties the buffer |
| `Peers.Peer.StartReassembly` | peer/peer.go:97-109 | Replaces whatever was collected by the first fragment |
| `Peers.Peer.AppendReassembly` | peer/peer.go:112-127 | Extends an open message within the limit, otherwise clears it, and reports which |
| `Peers.Peer.FinishReassembly` | peer/peer.go:130-147 | Completes an open message within the limit and always empties the buffer |
| `Peers.Peer.UpgradeTransport` | peer/peer.go:158-198 | Installs address, connection, transport and session, closes the old session and, unless it is the shared UDP socket, the old connection, and clears recovery; a TCP peer refuses another transport and changes nothing; keeps the reassembly buffer |
| `Peers.Peer.Close` | peer/peer.go:281-306 | Disconnects: closes and drops the session, closes a TCP connection and clears recovery |
| `Peers.Peer.Decrypt` | peer/peer.go:437-447 | Decrypts under the current session, or fails without one |
| `Peers.Peer.ReserveRehandshakeAttempt` | peer/peer.go:484-508 | Admits or refuses with the wait, as the value-level limiter does |
| `Peers.Peer.RecordRehandshakeFailure` | peer/peer.go:511-537 | Counts the failure and sets backoff and next attempt, overflow included |
| `Peers.Peer.RecordRehandshakeSuccess` | peer/peer.go:540-551 | Clears failure count and backoff and starts the cooldown |
| `Nodes.Node.SendAppFrame` | node/node_channel.go:222-318 | Writes exactly the first packets the transport takes of the sealed frames of the payload; a failed write still uses up one nonce; without a live session nothing is sent |
| `Nodes.Node.SendTail` | node/node_channel.go:306-317 | The loop writes the packets after the first, up to the write that fails |
| `Nodes.Node.Send` | node/node_channel.go:209-219 | Sends channel hash and data if the node itself subscribes to the channel, and otherwise fails and sends nothing |
| `Nodes.Node.ProcessData` | node/data_flow.go:19-72 | Decrypts, reassembles, dispatches and drives recovery exactly as the value-level receive path and gate do |
| `Nodes.Node.HandleAppFrame` | node/node_channel.go:175-206 | Passes on user data of subscribed channels and channel updates, and ignores everything else |
| `Nodes.Node.TriggerFastRehandshake` | node/rehandshake.go:17-36 | Marks, reserves, and undoes the mark on refusal |
| `Nodes.Node.JoinChannel` | node/node_channel.go:29-44 | Adds name and hash, once |
| `Nodes.Node.LeaveChannel` | node/node_channel.go:47-65 | Removes name and hash, and tells whether the name was there |
| `Nodes.Node.IsChannelSubscribed` | node/node_channel.go:142-153 | Answers from the index for hashes of 32 bytes |
| `Nodes.Node.constructor` | node/node.go:124-127 | Builds the index from the configured names |
| `Channels.IndexRefinesScan` | node/node_channel.go:29-65 | After any construction, joins and leaves the list has no duplicates, and the index agrees with hashing every name if the hash is injective on the names used |
| `Channels.ListHoldsSubscribed` | node/node_channel.go:29-65 | After any construction, joins and leaves the list holds a name exactly when its latest operation was a join, or it was configured and never left |
| `Channels.IndexMeansSubscribed` | node/node_channel.go:142-153 | Under a hash injective on the names used, the index holds the hash of a name exactly when the name is subscribed |
| `Channels.AgreementIffInjective` | node/node_channel.go:142-153 | Over any set of names, all runs keep index and scan in agreement exactly when the hash is injective on it |
| `Channels.CollisionBreaksIndex` | node/node_channel.go:47-65 | For every collision, leaving one name drops the other from the index |
| `Channels.AddNamesOk` | node/config.go:383-392 | The configured list holds exactly the given names, each once |
| `Framing.FramingRoundTrip` | internal/protocol/protocol.go:61-76 | A list of packets survives the stream exactly when every packet has 1 to 65535 bytes |
| `Framing.ParseBuild` | internal/protocol/protocol.go:34-40 | Every built packet parses back to its type and payload |
| `Framing.ParseExactly` | node/tcp_io.go:104-114 | A frame is taken as packet p exactly when it is the bytes of p, so frames without the magic are skipped |
| `Framing.FramesOfStreamThen` | node/tcp_io.go:69-102 | Complete frames are cut off one after the other whatever follows them in the stream |
| `Framing.FramesArePrefix` | node/tcp_io.go:69-102 | On arbitrary bytes the frames re-encode to a prefix of the stream, and reading stops only at a zero length or inside a frame |
| `Framing.HandleTCP` | node/tcp_io.go:69-115 | The read loop dispatches exactly the TENT packets among the frames up to the first zero length or truncation |
| `Reconnect.ReconnectOutcome` | node/reconnect.go:276-394 | With m tries every loop left to run ends within 5m + 2 steps after at most m connection calls; giving up happens after exactly m calls, reports m and carries the latest error |
| `Reconnect.ConnectedEndsLoop` | node/reconnect.go:292-394 | From any unfinished point of a run, two steps that see the peer connected end the loop with success and the attempts so far, unless the last try is over, when it gives up |
| `Reconnect.SuccessWasSeen` | node/reconnect.go:292-394 | Success is reported only at a check that saw the peer connected, with the attempts made by then |
| `Reconnect.OneLiveLoopPerPeer` | node/reconnect.go:165-197 | In every run without cancellation the entries are exactly the peers with an unfinished loop, one each |
| `Reconnect.ScheduledIsLive` | node/reconnect.go:165-197 | In every run scheduling a peer with an address leaves it with an unfinished loop, the one it had or a new one, and no step touches another peer's entry or loop |
| `Reconnect.ReconnectManager.ScheduleReconnect` | node/reconnect.go:165-197 | Starts a loop unless disabled, without address, or already waiting or connecting |
| `Reconnect.ReconnectManager.ReconnectLoop` | node/reconnect.go:276-394 | The loop makes the calls, keeps the entry and reaches the outcome of the value-level loop on the same observations |
| `Reconnect.ReconnectManager.HandleReconnectSuccess` | node/reconnect.go:447-468 | Deletes the entry and reports the attempts |
| `Reconnect.ReconnectManager.HandleReconnectFailed` | node/reconnect.go:471-487 | Deletes the entry and reports one attempt less and the last error |
| `Reconnect.DelayWithinBounds` | node/reconnect.go:408-443 | For every configuration, attempt and random draw the delay lies between the bounds in effect, defaults included |
| `Reconnect.DelayLaw` | node/reconnect.go:408-443 | The n-th delay is the initial delay times multiplier^(n-1), capped, exactly so without jitter and otherwise within the jitter factor of it, at the lower edge for a draw of 0 |
| `Reconnect.DelayMonotone` | node/reconnect.go:408-443 | Without jitter later attempts never wait less |
| `DiscoveryCodec.CodecRoundTrip` | node/discovery.go:35-71 | A peer list survives encoding and parsing exactly when every string fits 255 bytes and there are fewer than 65536 entries |
| `DiscoveryCodec.ParseEncoded` | node/discovery.go:35-71 | In general parsing returns the encodable entries up to their number modulo 65536 |
| `DiscoveryCodec.ParsedIsPrefix` | node/discovery.go:88-136 | On arbitrary bytes the parsed entries re-encode to a prefix of the input, and parsing stops early only where no whole entry is left |
| `DiscoveryCodec.BuildResponse` | node/discovery.go:35-71 | The collecting loop produces the encoding |
| `DiscoveryCodec.ParseResponse` | node/discovery.go:88-136 | The offset loop stays in bounds, terminates and returns what the recursive parser does |
| `Discovery.EarlyReadmission` | node/discovery.go:155-186 | A key admitted twice within its cooldown was dropped in between by a call that found its entry still there and the table holding 1024 entries none of which was stored before it |
| `Discovery.AdmittedExactly` | node/discovery.go:155-186 | A call is admitted exactly when its key is not in its cooldown and a slot is free; then it is stored for a cooldown and takes the slot |
| `Discovery.RefusalsJustified` | node/discovery.go:155-231 | From an empty table on, a refused call had its key admitted less than a cooldown before, or all eight slots in use |
| `Discovery.EventIsInterleaving` | node/discovery.go:155-231 | Calls that run one at a time are runs of the interleaved critical sections |
| `Discovery.EntriesAreAdmissions` | node/discovery.go:155-186 | From an empty table on, every entry is an admitted call made one cooldown before it expires |
| `Discovery.InterleavingsBounded` | node/discovery.go:155-231 | Under every interleaving of the two critical sections the table holds at most 1024 entries and the held slots are the running connects, at most eight |
| `Discovery.Throttle.PruneLocked` | node/discovery.go:188-194 | Deletes exactly the expired entries |
| `Discovery.Throttle.TrimLocked` | node/discovery.go:196-224 | Keeps the target number of entries, dropping ones that expire no later than any kept |
| `Discovery.Throttle.TryBeginDiscoveryConnect` | node/discovery.go:155-186 | Admits, refuses or undoes as the relation over table and semaphore says |
| `Discovery.Throttle.EndDiscoveryConnect` | node/discovery.go:226-231 | Releases a slot if one is held |
| `RelayAuth.TokenRoundTrip` | nat/relay_auth.go:164-196 | A token survives its encoding exactly when the signature has at most 255 bytes |
| `RelayAuth.DecodeEncoded` | nat/relay_auth.go:164-196 | In general decoding cuts the signature to its length modulo 256 |
| `RelayAuth.DecodedIsPrefix` | nat/relay_auth.go:177-196 | On arbitrary bytes decoding reads the encoding of its result off the front, and fails only on data too short for one |
| `RelayAuth.MessageCovers` | nat/relay_auth.go:155-161 | The signed bytes determine both ids and the timestamp |
| `RelayAuth.TamperedRejected` | nat/relay_auth.go:91-153 | A generated token shown with any fields under its signature is accepted under the same password exactly when no field was changed and the date passes, collisions of the code aside |
| `RelayAuth.AgeLaw` | nat/relay_auth.go:118-127 | For every timestamp a token can carry, the 64-bit age is within the lifetime exactly when the clocks differ by at most the lifetime, or by exactly 2^63 seconds, where the age overflows |
| `RelayAuth.AcceptedExactly` | nat/relay_auth.go:114-196 | Whatever bytes decode to a token, an enabled node accepts it exactly when its key signs it and its date passes that test |
| `RelayAuth.GeneratedAccepted` | nat/relay_auth.go:91-153 | A generated token is accepted by another node exactly when it does not check, or the clocks are within its lifetime and its key gives the same code |
| `Relay.TwoHopTransparency` | node/relay_handler.go:95-228 | For every inner packet and printable address the target dispatches exactly the wrapped packet if relaying is on at both hops and each hop's token passes, and nothing otherwise |
| `Relay.SharedPasswordRelays` | node/relay_handler.go:95-228 | Under a shared password, with relaying on at both hops and tokens within their lifetime, every packet arrives with its type and payload |
| `Relay.DeliveredExactly` | node/relay_handler.go:141-228 | From arbitrary bytes a node dispatches packet p exactly when relaying is on and they encapsulate p in Target mode behind a resolvable address and an accepted token |
| `Relay.ForwardedIsRouted` | node/relay_handler.go:196-212 | A relay records the route from a Forward packet's target back to its origin exactly when it forwards the packet |
| `Relay.OpenExactly` | node/relay_handler.go:149-170 | A payload opens to an envelope exactly when it is the encapsulation of it |
| `Relay.TokenNeverCut` | node/relay_handler.go:95-139 | The 255-byte cut never changes a generated token |
| `Relay.RelayHop` | node/relay_handler.go:141-228 | A relay re-wraps the same inner packet for the target if relaying is on and the token passes, and drops it otherwise |
| `Relay.TargetHop` | node/relay_handler.go:141-228 | A target unwraps and dispatches a well-formed inner packet if relaying is on and the token passes, and drops it otherwise |
| `Relay.OpenEncapsulated` | node/relay_handler.go:141-170 | Parsing a built payload returns its fields, or nothing for an empty inner packet |
| `Relay.FillPayload` | node/relay_handler.go:118-139 | Filling the buffer at a moving offset produces the encapsulation |
| `Relay.RelayNode.BuildRelayPacket` | node/relay_handler.go:95-139 | Builds the packet or reports a missing target or an oversized address |
| `Relay.RelayNode.HandleRelayPacket` | node/relay_handler.go:141-228 | Acts as the value-level handler, records the return route exactly when forwarding and the inbound mark exactly when delivering |
| `Tables.TablesConsistent` | node/handshake.go:68-181 | In every run of handshakes, KCP upgrades, removals and cleanups every mapped address belongs to a stored peer, the peer count stays within MaxPeers, and cleanup has nothing to do |
| `Tables.EntriesStay` | node/handshake.go:68-181 | In every run a stored peer keeps its link until a handshake with it or its removal, and a mapped address its peer until a handshake or KCP upgrade there or the peer's removal |
| `Tables.OthersKept` | node/handshake.go:68-181 | Every step leaves all other peers and all other addresses as they were |
| `Tables.SessionStores` | node/handshake.go:68-181 | A completed handshake leaves its peer stored exactly when it is known or within the limit, with the new link unless a TCP peer refuses |
| `Tables.KcpMapsAddress` | node/kcp_transport.go:137-160 | Sending over KCP maps the address of a stored peer |
| `Tables.CleanupRepairs` | node/heartbeat.go:151-163 | From any tables cleanup drops exactly the mappings to peers not stored |
| `Tables.RemovedStaysOut` | node/heartbeat.go:81-127 | In every run, from the removal of a peer to its next handshake, the peer is not stored and no address is mapped to it |
| `Tables.SessionMapsAddress` | node/handshake.go:68-181 | The exact condition under which a completed handshake leaves its address mapped to the peer |
| `Tables.MovedPeerUnmapped` | node/handshake.go:162-181 | For every peer limit and all transports, a known peer's handshake from a second address maps it exactly when the peer moves to TCP by it; the link takes the address unless a TCP peer refuses another transport |
| `Tables.NodeTables.ProcessSession` | node/handshake.go:68-146 | Adds a new peer within the limit or refreshes a known one |
| `Tables.NodeTables.HandleExistingPeer` | node/handshake.go:149-181 | Moves a peer to TCP and maps the address, or refreshes its link only |
| `Tables.NodeTables.RemovePeer` | node/heartbeat.go:81-127 | The loop over the address table deletes exactly the peer's addresses |
| `Tables.NodeTables.CleanupStaleMappings` | node/heartbeat.go:151-163 | The loop deletes exactly the addresses of peers no longer stored |

## Left out

- Sockets, hole punching, startup and connect orchestration: timers and races over external effects.
- KCP: a wrapper over a library; only its entry in the address table is modelled, and data travels over the TCP framing.
- The inside of the Noise library, AES-GCM, SHA-256, HMAC and Ed25519: abstract functions with stated laws; the nonce limit of 2^64 is not reached by the model.
- HandshakeState.WriteMessage, the pre-handshake checks of processHandshake and the pendingHandshakes and relay maps it cleans up.
- Agreement of both ends on the newest session after simultaneous or refused upgrades: the code does not guarantee it.
- Cancellation in the reconnect manager: a cancelled loop can still finish after its entry was replaced, so the one-loop result is for runs without cancellation.
- The choice of transport in sendAppFrame and the relay link mode of a peer.
- The statistics of a peer; RemoteChannels, Broadcast and the channel announcements.
- The task of triggerFastRehandshake beyond its recorded result: sending the handshake, polling, and the fall-back to a reconnect.
- UDP mux routing, relay scoring, NAT type selection, heartbeats, timestamps: a few case distinctions each.
- Logger, metrics, buffer pool, CLI, identity files and API wrappers.
- Reconnect.DelayWithinBounds: over the reals, without float64 rounding or overflow of the power.
- Reconnect.DelayMonotone: over the reals, without float64 rounding or overflow of the power.
- HandshakeRuns.SessionsMirrored: the exchange is symbolic, with messages bound to everything exchanged before; static keys and payloads are not separated out.
- Handshake.HandshakeState.Initiator: not the key-length error, nor the bytes of the first message, which the model has as a value beside the state.
- Handshake.HandshakeState.Responder: not the key-length error.
- Discovery.EarlyReadmission: for calls that run one at a time; interleaved calls are covered by Discovery.InterleavingsBounded only.
- RelayAuth.GeneratedAccepted: the HMAC path only, as the relay handler uses it, and for clocks below 2^62 seconds; RelayAuth.AgeLaw has every timestamp.
- Reconnect.DelayLaw: over the reals, without float64 rounding or overflow of the power.
- RelayAuth.AcceptedExactly: the HMAC path only, as the relay handler uses it, and for clocks below 2^62 seconds.
- Nodes.Node.SendAppFrame: not the errors for the node itself, an unknown peer or a missing send channel; a refused write stands for any failure of the transport.
- Nodes.Node.ProcessData: for a peer already found; the lookup by remote address and the byte counters are not in it.
- Nodes.Node.TriggerFastRehandshake: up to the admission; the task it starts is the Record and End events of RecoveryRuns, without the branch for a missing address.
- Tables.NodeTables.ProcessSession: the peer store and the address table only, not the pending-handshake and relay maps.
- Tables.NodeTables.HandleExistingPeer: the peer store and the address table only, not the relay link mode or the pending-handshake map.
- Tables.NodeTables.CleanupStaleMappings: the pass over the address table only.
- Goroutine order: callbacks that the source starts in goroutines happen in the model where they are started.
