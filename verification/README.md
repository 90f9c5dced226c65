# Maverick in Dafny

A model of the hard core of Maverick, a tunnelling client with a small shared core, and proofs about it:

- **Frames and streams** (`Frame`, `Grpc`, `Receiver`, `Sender`, `H3Channel`): the byte codec inside the gRPC
  envelope, the receive loop under arbitrary chunking, the send loop under arbitrary flow-control grants
  (sections 5.2 and 6.9 of RFC 9113), and both ends put together.
- **The relay** (`Relay`): upload and download of one flow, half closes, full closes, resets and timeouts, as a
  state machine over all event sequences, for H2 and for H3.
- **The connection pool** (`PoolState`, `PoolProtocol`, `PoolRuns`, `PoolPaths`, `PoolWidth`, `Histogram`): the
  mutex-protected state as a class with a law about the leases it has handed out, and the openers around it (connect
  gate, retry loops, leases, cancellation, maintenance, shutdown) as a state machine over all interleavings: what every
  run keeps, and what an opener gets. Counters are first unbounded, then saturating, and the two are related.
- **The replay cache** (`Replay`, `ReplayClock`): the bounded expiring cache against an unbounded history.
- **Authentication messages** (`Hello`, `Transcript`): four wire messages, four MAC transcripts, the handshake.
- **The TUN helper** (`TunHelper`): a write-ahead journal around system commands, a crash possible after each.
- Smaller pieces: the lock-free peak counter (`PeakCounter`), the CONNECT reader (`HttpConnect`, `Decimal`), SOCKS5
  datagrams (`Targets`, `Socks5`, section 7 of RFC 1928), the unknown-key location (`ConfigLocation`).

State machines take a list of events. An event that is not enabled changes nothing, so a theorem over all event lists
covers every interleaving and every prefix. Objects the program updates in place are classes whose methods are proved
against functions on values; the laws are then lemmas about those functions.

Parameters stand for what lies outside: chunks, flow-control grants, clocks, nonces, prepared frame lists and padding,
the outcome of every system command (`Luck`), the text `ip route show` prints (`Listing`), UTF-8 validity, IP address
text (assumed to print and parse back), HMAC and HKDF (any functions). Machine limits are written out where the code
meets them: 64-bit and 32-bit counters saturate, length fields truncate, i64 window arithmetic is checked or saturates.

## Where the code and the expectation part

Each of these has its exact condition, or a concrete input, among the members below.

- The CONNECT reader checks its 8192-byte limit after looking for the blank line, so a header is read however it is cut
  exactly when it ends within 8193 bytes (`HttpConnect.ChunkingNeverMattersIff`).
- The gRPC length is 32 bits and unchecked on encode: the round trip holds exactly up to 2^32 - 1 message bytes
  (`Grpc.GrpcRoundTrip`).
- Configuration admits credential ids of 65,535 bytes, the v1 decoder 512 (`Hello.ClientHelloExact`,
  `Hello.LongCredentialIdRefused`).
- The replay guarantee needs a clock that does not go back over a cleanup (`Replay.ClockGoingBackReplays`,
  `ReplayClock.RepeatRefusedIff`), and so does the upper edge of a full cache (`ReplayClock.FullCacheTopIff`,
  `ReplayClock.ClockGoingBackFillsAbove`). The size bounds and key sets hold under any clock; that no bucket is empty
  needs a positive entry limit (`Replay.EmptyBucketWithoutRoom`).
- On H3 a CloseFlow does not stop the upload until the response is complete, on H2 it does at once
  (`Relay.FullCloseEndsUploadIff`, `Relay.CloseFlowThenData`).
- The pool's 32-bit stream count saturates on the way up and still counts down (`PoolWidth.CountIsExactIff`,
  `PoolWidth.MiscountHappens`).
- An empty list of prepared frames sends no end-of-stream even when asked to; on H3 the request is marked as ended all
  the same (`Sender.H2Sender.SendFrame`, `H3Channel.H3Sender.SendFrame`).
- A failing `ip link show` is read as an absent link, so a rollback can report success and leave the link
  (`TunHelper.SuccessfulRollbackIsClean`), which is how a link the run made can end up with no journal
  (`TunHelper.UnnamedLinkIsKept`); and the route listing is matched by substring, so a route through a link
  whose name contains the recorded one makes a rollback refuse (`TunHelper.LongerNameBlocksRollback`,
  `TunHelper.RollbackSucceedsIff`).
- Reading an authority does not undo writing it for a domain that starts with a bracket or reads as an IP address
  (`HttpConnect.AuthorityRoundTrip`).

## Model

| member | source | states |
|---|---|---|
| Frames.DecodeFrameExact | crates/maverick-core/src/frame.rs:78-127 | for any bytes a frame comes out if and only if the buffer starts with the encoding of exactly that frame, within the size limit; what follows is left in the buffer |
| Frames.DecodeFrameWaitsIff | crates/maverick-core/src/frame.rs:97-127 | waits exactly while the header, or a payload within the limit, is not all there; an oversize length is refused on the header alone, an unknown type only once the frame is complete |
| Frames.DecodeFrameFrom | crates/maverick-core/src/frame.rs:97-127 | the in-place decoder gives that verdict and leaves the buffer untouched unless it consumed a frame |
| Grpc.DecodeGrpcStable | crates/maverick-core/src/grpc.rs:20-53 | a verdict already reached never changes when more bytes arrive: same frame or same error, same consumption |
| Grpc.DecodeGrpcExact | crates/maverick-core/src/grpc.rs:8-53 | the gRPC decoder accepts exactly the encodings of frames that fit both the limit and the 32-bit message length |
| Grpc.DecodeGrpcWaitsIff | crates/maverick-core/src/grpc.rs:20-53 | waits exactly while the envelope header, or an uncompressed message within the limit, is not all there; a compressed or oversize message is an error at once and consumes nothing |
| Grpc.GrpcRoundTrip | crates/maverick-core/src/grpc.rs:8-53 | a frame that encodes decodes back if and only if 14 + payload length fits in 32 bits |
| Grpc.DecodeGrpcFrameFrom | crates/maverick-core/src/grpc.rs:20-53 | the in-place decoder follows that function; an error after the envelope has consumed the whole message |
| Receiver.ReadNextScans | crates/maverick-client/src/tunnel.rs:688-709 | one read takes exactly the next non-padding frame, or the first error, of the one-shot parse of everything still to come |
| Receiver.ReceiveMatchesOneShot | crates/maverick-client/src/tunnel.rs:688-709 | for every byte stream and every way of cutting it, the loop yields the frames and the first error of one-shot parsing |
| Receiver.ChunkingIsInvisible | crates/maverick-client/src/tunnel.rs:688-709 | two deliveries of the same bytes that end alike are indistinguishable |
| Receiver.ReceiveEncoded | crates/maverick-client/src/tunnel.rs:688-709 | any chunking of the encoding of a list of frames delivers exactly its non-padding frames, in order |
| Receiver.FinishExact | crates/maverick-client/src/tunnel.rs:711-770 | finishing succeeds if and only if only complete padding frames are left and either the trailers are absent or carry the single status "0", or the legacy reset is allowed and happened |
| Receiver.H2Receiver.ReadNextFrame | crates/maverick-client/src/tunnel.rs:688-709 | the loop with its shared buffer is the specification function, buffer and remaining events included |
| Receiver.H2Receiver.Receive | crates/maverick-client/src/tunnel.rs:154-159 | draining the body returns all frames up to the first non-frame result |
| Receiver.H2Receiver.Finish | crates/maverick-client/src/tunnel.rs:711-770 | the finish loop is the function of FinishExact |
| Sender.H2Sender.WaitCapacity | crates/maverick-client/src/tunnel.rs:642-656 | empty assignments are waited out; the first real one is used up to what is needed; closed and stalled streams fail |
| Sender.H2Sender.SendBytes | crates/maverick-client/src/tunnel.rs:658-686 | completes exactly when the grants suffice (Spend), and says what is left of them; the chunks concatenate to the bytes, end-of-stream is on exactly the last one when asked; an aborted send is an unended prefix |
| Sender.H2Sender.SendH2Frame | crates/maverick-client/src/tunnel.rs:624-640 | completes exactly when the frame fits the limit and the grants suffice; one whole frame, or a prefix of it; an oversize frame sends nothing |
| Sender.H2Sender.SendPadding | crates/maverick-client/src/tunnel.rs:108-130 | completes exactly when every frame fits and the grants suffice; padding and cover frames go out in order and never end the stream |
| Sender.H2Sender.SendFrame | crates/maverick-client/src/tunnel.rs:97-152 | completes exactly when every frame and its padding fits the limit and the grants suffice for all of it, with the first reason otherwise; end-of-stream on the last chunk of the last frame only (so none at all for an empty list); an aborted send is an unended prefix of the encoding of leading frames that all fit |
| Sender.SendThenReceive | crates/maverick-client/src/tunnel.rs:97-152 | whatever window was granted and whatever padding was inserted, the chunks of a completed send give the receive loop exactly the non-padding frames that were handed in, in order, after those of earlier sends |
| Sender.TruncatedSendReceivesPrefix | crates/maverick-client/src/tunnel.rs:658-709 | a send cut short for any reason, an oversize frame included, delivers a prefix of those frames and no error |
| Sender.PaddingVanishes | crates/maverick-client/src/tunnel.rs:108-130 | of everything put on the wire only the frames handed in are left once padding is dropped |
| Sender.SendAndReceive | crates/maverick-client/src/tunnel.rs:97-159 | the two objects run one after the other: the send completes exactly when everything fits and the grants suffice; what is received is then what was handed in, and a prefix of it when the send was aborted |
| Sender.GenerousWindowSuffices | crates/maverick-client/src/tunnel.rs:642-686 | frames that fit the limit go out completely under any positive grants, however the window is cut up, once there are as many as bytes |
| H3Channel.ReadAllExact | crates/maverick-core/src/h3_channel.rs:60-80 | reading returns the frames ahead of the first stop without padding, then why it stopped: end, transport error, closed channel or oversize frame |
| H3Channel.EveryInputStops | crates/maverick-core/src/h3_channel.rs:60-80 | every inbound sequence has the shape ReadAllExact speaks about |
| H3Channel.H3Receiver.Read | crates/maverick-core/src/h3_channel.rs:60-80 | the padding-filtering loop is the specification function |
| H3Channel.H3Receiver.ReadAll | crates/maverick-client/src/h3.rs:115-117 | reading until something other than a frame comes back is the function of ReadAllExact |
| H3Channel.H3Sender.HandOver | crates/maverick-core/src/h3_channel.rs:42-58 | the size check comes before the closed-channel check; a refused frame leaves nothing behind |
| H3Channel.H3Sender.SendFrame | crates/maverick-client/src/h3.rs:248-286 | succeeds exactly when every frame fits and the transport lasts; end-of-stream on the very last frame; otherwise a proper prefix of fitting frames with no end of stream, and the request is not marked ended |
| H3Channel.H3Sender.FinishResponse | crates/maverick-client/src/h3.rs:123-140 | succeeds exactly when the request is or can be ended and the next non-padding item is the end; end-of-stream is then out exactly once |
| H3Channel.H3SendThenRead | crates/maverick-core/src/h3_channel.rs:42-80 | a completed send read under the same limit gives the non-padding frames that were handed in, whatever padding was inserted, then the end |
| H3Channel.H3BrokenSendReadsPrefix | crates/maverick-core/src/h3_channel.rs:42-80 | a send that broke off anywhere, an oversize frame included, gives a prefix of them, then the closed channel |
| H3Channel.SendAndRead | crates/maverick-client/src/h3.rs:248-286 | the two objects run one after the other: everything handed in exactly when all fits and the transport lasts, a prefix otherwise |
| Relay.DeliveredIsResponsePrefix | crates/maverick-client/src/session.rs:277-459 | in every run and at every point, ended or not, the bytes handed to the local side are the flow's data payloads before its first terminal frame up to what is left of the write in progress, so all of them when none is; only a failure or the idle timer ends a relay mid-write |
| Relay.SentIsLocalPrefix | crates/maverick-client/src/session.rs:286-308 | frames sent are data frames carrying a prefix of the local input, then at most one FIN, which alone carries end-of-stream and is sent only after all input |
| Relay.BothDoneIsComplete | crates/maverick-client/src/session.rs:277-395 | a relay that ends because both directions are done moved everything both ways |
| Relay.ResponseFinKeepsUpload | crates/maverick-client/src/session.rs:309-366 | a response FIN never ends the upload |
| Relay.FullCloseEndsUploadIff | crates/maverick-client/src/h3.rs:142-245 | after a CloseFlow, Error or TcpReset no frame is ever sent again if and only if it is not an H3 CloseFlow whose response is still incomplete |
| Relay.CloseFlowThenData | crates/maverick-client/src/h3.rs:209-222 | a run where data is sent after an H3 CloseFlow |
| Relay.StoppedSendsNothing | crates/maverick-client/src/session.rs:277-395 | once the upload stopped or the relay ended, nothing more is ever sent |
| Relay.StepRecords | crates/maverick-client/src/session.rs:277-459 | in every state the five records of a relay (received, local, end of file, sent, delivered) grow by what the event says, no more and no less |
| Relay.FailuresEnd | crates/maverick-client/src/session.rs:277-459 | a broken direction, the idle timer, the end of the response, a write without progress and, on H3, a frame after the response has ended end the relay, each with its own result, unless the direction concerned is over |
| Relay.CloseFramesEnd | crates/maverick-client/src/session.rs:334-366 | a CloseFlow, Error or TcpReset ends the relay once it has been carried out, with that frame as the result, or as a failure for the last two on H3 |
| Relay.DownloadDelivers | crates/maverick-client/src/session.rs:309-328 | from any state waiting for the response, any list of payloads is delivered whole and in order, and nothing else changes |
| Relay.UploadSends | crates/maverick-client/src/session.rs:286-308 | from any state waiting for local input, any list of reads is sent in order, and nothing else changes |
| Relay.HalfCloseCompletes | crates/maverick-client/src/session.rs:277-395 | for all payloads and reads on both protocols, a relay whose response ends first still sends everything and ends with both directions done |
| Relay.WriteAll | crates/maverick-client/src/session.rs:436-459 | the write loop delivers a prefix, and everything exactly when every write made progress to the end |
| PoolState.ConnectionPool.constructor | crates/maverick-client/src/connection_manager.rs:407-421 | an empty pool, lawful with no lease |
| PoolState.ConnectionPool.Checkout | crates/maverick-client/src/connection_manager.rs:472-507 | drops a closed connection; a lease joins the live ones and keeps the lease law: total = live leases, cached count = those of its generation, idle exactly without any, below saturation |
| PoolState.ConnectionPool.Install | crates/maverick-client/src/connection_manager.rs:509-551 | refused after shutdown or when something is cached; otherwise a generation no live lease has, with its first lease, and the law is kept |
| PoolState.ConnectionPool.RecordInstalledConnection | crates/maverick-client/src/connection_manager.rs:210-264 | the created count and both partitions move together or not at all, so they keep adding up, at the 64-bit limit too |
| PoolState.ConnectionPool.Release | crates/maverick-client/src/connection_manager.rs:368-386 | one live lease of that generation goes and the law is kept, the idle mark included |
| PoolState.ConnectionPool.InvalidateAfterReadinessFailure | crates/maverick-client/src/connection_manager.rs:553-563 | counts the failure; the generation is no longer cached, another one stays; live leases stay counted |
| PoolState.ConnectionPool.InvalidateAfterStreamOpenFailure | crates/maverick-client/src/connection_manager.rs:565-575 | counts the failure; the generation is no longer cached, another one stays; live leases stay counted |
| PoolState.ConnectionPool.RetireAfterHandshakeTimeoutIfUnshared | crates/maverick-client/src/connection_manager.rs:577-590 | counts the timeout; retires exactly a cached generation without any live lease, leaves another one cached, and each retirement owes one recovery |
| PoolState.ConnectionPool.RecordTimeoutRecovery | crates/maverick-client/src/connection_manager.rs:592-595 | counted against an owed retirement, recoveries stay within retirements and those within timeouts |
| PoolState.ConnectionPool.Shutdown | crates/maverick-client/src/connection_manager.rs:617-624 | live leases stay counted by the law, and every later checkout and install is refused |
| PoolState.ConnectionPool.RetireInactiveConnection | crates/maverick-client/src/connection_manager.rs:655-674 | retires a closed connection, or an unused one idle for long enough, and keeps the law |
| PoolState.InstallKeepsPartition | crates/maverick-client/src/connection_manager.rs:209-264 | installing keeps both partitions equal to the created count, at the 64-bit limit too |
| PoolState.CheckoutExact | crates/maverick-client/src/connection_manager.rs:472-507 | a lease is given exactly on an open connection of a pool that is not shut down, and on that generation; a closed one is dropped |
| PoolState.InstallExact | crates/maverick-client/src/connection_manager.rs:509-551 | installed exactly when not shut down and nothing is cached, as the next generation, which is then cached; otherwise the pool is unchanged |
| PoolState.FailureUncaches | crates/maverick-client/src/connection_manager.rs:553-575 | after either failure its generation is not cached, and another generation is untouched |
| PoolState.TimeoutExact | crates/maverick-client/src/connection_manager.rs:577-590 | a timed-out generation is retired exactly when it is cached and unused; otherwise what is cached stays |
| PoolState.IdleExact | crates/maverick-client/src/connection_manager.rs:655-674 | an open, unused connection stays cached exactly while it has been idle for less than the timeout, one in use always, a closed one never |
| PoolProtocol.ApplyInv | crates/maverick-client/src/connection_manager.rs:423-624 | every step of every opener, cancellation, closing connection, maintenance round and shutdown keeps the whole invariant |
| PoolProtocol.LeasesAreCounted | crates/maverick-client/src/connection_manager.rs:368-386 | in every reachable state the pool's count is the number of live leases, the cached connection's is that of its own generation, and it is marked idle exactly at zero |
| PoolProtocol.OneDialAtATime | crates/maverick-client/src/connection_manager.rs:454-470 | at most one dial is in flight, and the pool-changed branch is unreachable for it |
| PoolProtocol.LeaseBudget | crates/maverick-client/src/connection_manager.rs:85-142 | an opener takes at most four leases, holds exactly one on success and none after an error or a cancellation |
| PoolProtocol.TimeoutRetiresOnlyUnshared | crates/maverick-client/src/connection_manager.rs:577-590 | a timed-out opener has let its own lease go first, and its generation is retired if and only if it is still cached and nobody holds it |
| PoolProtocol.PoolConservation | crates/maverick-client/src/connection_manager.rs:472-595 | streams opened = created + reused; reconnects = created - 1 or 0; created is bounded by the cached one plus all ways of losing one; recoveries <= retirements <= timeouts; both partitions add up |
| PoolRuns.GenerationsNeverReturn | crates/maverick-client/src/connection_manager.rs:519-551 | over any run generations only grow and one that left the cache never comes back |
| PoolRuns.StaleLeaseIsHarmless | crates/maverick-client/src/connection_manager.rs:368-386 | in every reachable state an opener with a lease, or a failure to report, of another generation than the cached one is behind it, and no step of it, cancellation included, changes the cached connection |
| PoolRuns.StaleStaysHarmless | crates/maverick-client/src/connection_manager.rs:553-590 | and for every continuation of the run: a generation that is not cached stays so, and whoever still has it never touches what is |
| PoolRuns.FailedConnectionIsGone | crates/maverick-client/src/connection_manager.rs:553-575 | once an opener has reported that its connection failed, no continuation of the run caches that generation or gives out another lease of it |
| PoolRuns.EndedConnectionIsGone | crates/maverick-client/src/connection_manager.rs:472-507 | a connection whose driver has ended is never usable again and no further lease of it is given, for every continuation |
| PoolRuns.ShutdownIsFinal | crates/maverick-client/src/connection_manager.rs:617-624 | after shutdown nothing is cached and no opener, old or new, gets a lease, for every continuation |
| PoolRuns.ShutdownThenFinal | crates/maverick-client/src/connection_manager.rs:617-624 | the shutdown call reaches such a state from anywhere |
| PoolPaths.CachedConnectionIsReused | crates/maverick-client/src/connection_manager.rs:423-507 | from any state with an open connection cached, an attempt whose waits succeed gets its tunnel on that generation: no gate, no dial, one more reused stream |
| PoolPaths.EmptyPoolDials | crates/maverick-client/src/connection_manager.rs:423-551 | from any state with nothing cached and the gate free, an attempt dials, installs the next generation and gets its tunnel on it, the gate free again |
| PoolPaths.LeaseBecomesTunnel | crates/maverick-client/src/connection_manager.rs:85-105 | an opener with a lease whose waits succeed has its tunnel on that lease, and a pending recovery is counted once |
| PoolPaths.NotReadyLooksAgain | crates/maverick-client/src/connection_manager.rs:423-452 | a connection that is not ready leaves the cache, the lease is dropped, and the opener looks again exactly once |
| PoolPaths.StreamErrorTriesAgain | crates/maverick-client/src/connection_manager.rs:122-125 | a stream that cannot be opened uncaches its connection after the lease is dropped, and the opener makes exactly one more attempt |
| PoolPaths.TimeoutTriesAgainAlone | crates/maverick-client/src/connection_manager.rs:106-139 | a handshake that times out or stalls retires the cached connection exactly when nobody else uses it, and only then is there one more attempt, as a recovery |
| PoolPaths.OtherErrorGivesUp | crates/maverick-client/src/connection_manager.rs:126 | any other handshake error ends the opener, gives its lease back and leaves the connection cached |
| PoolPaths.CancelGivesBack | crates/maverick-client/src/connection_manager.rs:368-386 | dropping an opener at any await, or its tunnel, gives back the gate and its lease: exactly one stream fewer is counted |
| PoolPaths.DialFailureFreesGate | crates/maverick-client/src/connection_manager.rs:454-470 | a failed dial frees the gate; a wait for the gate that takes too long leaves it to its holder; the pool is untouched |
| PoolPaths.MaintenanceRetiresIdle | crates/maverick-client/src/connection_manager.rs:655-674 | in every reachable state a maintenance round keeps the connection exactly when it is open and held by somebody, or idle for less than the timeout |
| PoolWidth.MachineFollowsIdeal | crates/maverick-client/src/connection_manager.rs:472-551 | the saturating pool is the unbounded one with its counters capped, same openers, gate and connection, below 2^32 live leases and 2^64 installs |
| PoolWidth.MachinePoolIsSound | crates/maverick-client/src/connection_manager.rs:368-386 | so the machine's own counts and books are exact in that range, the bound on created connections included |
| PoolWidth.MachineStateIsLawful | crates/maverick-client/src/connection_manager.rs:472-595 | every machine run in that range is in a state the in-place object's law admits, with the leases its openers hold |
| PoolWidth.CountIsExactIff | crates/maverick-client/src/connection_manager.rs:472-507 | the 32-bit stream count is the number of live leases at every point of a run if and only if fewer than 2^32 are ever live at once |
| PoolWidth.LeasesHaveNoLimit | crates/maverick-client/src/connection_manager.rs:472-551 | for every n some run with at most one install has n leases live at once |
| PoolWidth.MiscountHappens | crates/maverick-client/src/connection_manager.rs:472-507 | so some run of the protocol does leave the machine's count wrong |
| PoolWidth.PartitionsAlwaysAddUp | crates/maverick-client/src/connection_manager.rs:209-264 | the TLS-version and key-group partitions each sum to the created count in every run, saturated or not |
| Histogram.DurationHistogram.Record | crates/maverick-client/src/connection_manager.rs:319-332 | every bucket is the capped count of recorded durations within its bound, count and sum are capped totals |
| Histogram.BucketsAreCumulative | crates/maverick-client/src/connection_manager.rs:312-340 | buckets never decrease and the last one counts everything |
| Replay.CacheMatchesHistory | crates/maverick-core/src/replay.rs:40-95 | with a clock that does not go back, the bounded cache answers every call exactly as an unbounded history, reasons included |
| Replay.FreshCacheMatchesHistory | crates/maverick-core/src/replay.rs:26-95 | the same from an empty cache |
| Replay.NoReplay | crates/maverick-core/src/replay.rs:40-82 | a nonce accepted again for a credential means the first timestamp is strictly below the current window, so no triple is accepted twice |
| Replay.ClockGoingBackReplays | crates/maverick-core/src/replay.rs:83-95 | without the clock condition the same triple can be accepted twice: a concrete run |
| ReplayClock.RepeatRefusedIff | crates/maverick-core/src/replay.rs:40-95 | under any clock, an accepted triple offered again inside its window is refused as a duplicate if and only if no cleaning in between ran with a clock that put it below the window |
| Replay.CredentialIsolation | crates/maverick-core/src/replay.rs:59-82 | deleting all other credentials' calls leaves one credential's results unchanged while it is not refused for the credential limit |
| Replay.RunStaysBounded | crates/maverick-core/src/replay.rs:59-106 | after any run under any clock both size bounds hold, key sets equal the distinct entry nonces and no bucket is empty, and cache-full only happens when no stored entry is below the window; with a clock that has not gone back, only when every one is inside it |
| ReplayClock.ContentsExact | crates/maverick-core/src/replay.rs:40-95 | after any run under any clock the cache holds exactly the accepted entries that no later cleaning has passed |
| ReplayClock.FullCacheTopIff | crates/maverick-core/src/replay.rs:66-77 | under any clock, a full cache holds nothing above the window if and only if every accepted entry no cleaning has passed is within it |
| ReplayClock.ClockGoingBackFillsAbove | crates/maverick-core/src/replay.rs:66-77 | with room for one entry and a clock that goes back, a call finds the bucket full of an entry above its window |
| ReplayClock.ClockGoingBackInput | crates/maverick-core/src/replay.rs:66-77 | two concrete calls that do so |
| Replay.EmptyBucketWithoutRoom | crates/maverick-core/src/replay.rs:66-77 | a first call leaves a non-empty bucket if and only if the entry limit is positive |
| Replay.RetainEntries | crates/maverick-core/src/replay.rs:83-95 | the retain loop keeps exactly the live entries and their keys |
| Replay.ReplayCache.constructor | crates/maverick-core/src/replay.rs:27-38 | an empty cache with its limits |
| Replay.ReplayCache.CheckAndInsert | crates/maverick-core/src/replay.rs:40-82 | the in-place call is one step of the model |
| Replay.ReplayCache.CleanUp | crates/maverick-core/src/replay.rs:83-95 | in-place cleanup at the saturating cutoff drops expired entries and empty buckets |
| Replay.ReplayCache.IsEmpty | crates/maverick-core/src/replay.rs:104-106 | true exactly when no credential has a bucket |
| Replay.ReplayCache.Len | crates/maverick-core/src/replay.rs:97-102 | the number of stored entries over all credentials |
| Hello.ClientHelloExact | crates/maverick-core/src/auth.rs:156-202 | an input decodes to a hello if and only if it is that hello's encoding and the credential id is text of at most 512 bytes |
| Hello.LongCredentialIdRefused | crates/maverick-core/src/auth.rs:951-968 | ids of 513 to 65,535 bytes encode and are refused on arrival |
| Hello.ServerHelloExact | crates/maverick-core/src/auth.rs:318-362 | decode is the exact inverse of encode, for session ids the decoder takes |
| Hello.ClientHelloV2Exact | crates/maverick-core/src/auth.rs:488-543 | decode accepts exactly what encode produces |
| Hello.ServerHelloV2Exact | crates/maverick-core/src/auth.rs:690-747 | decode accepts exactly what encode produces |
| Transcript.ClientTranscriptInjective | crates/maverick-core/src/auth.rs:771-797 | the v1 client transcript determines every field, the optional binding included, for ids and paths of at most 65,535 bytes |
| Transcript.ServerTranscriptInjective | crates/maverick-core/src/auth.rs:799-826 | the v1 server transcript determines every field, for session ids of at most 255 bytes |
| Transcript.ClientV2TranscriptInjective | crates/maverick-core/src/auth.rs:828-863 | the v2 client transcript determines every field, for hints and paths of at most 65,535 bytes |
| Transcript.ServerV2TranscriptInjective | crates/maverick-core/src/auth.rs:865-892 | the v2 server transcript determines every field, for session ids of at most 255 bytes |
| Transcript.KindsNeverCoincide | crates/maverick-core/src/auth.rs:771-892 | transcripts of different kinds are never equal |
| Transcript.ClientHelloArrivesVerified | crates/maverick-client/src/tunnel.rs:449-505 | every hello a client builds with an id the decoder takes arrives intact and verifies under the same secret, path and binding |
| Transcript.ClientHelloVerifiesIff | crates/maverick-core/src/auth.rs:132-154 | a v1 hello verifies if and only if a client with that secret, path and binding builds that very hello from its fields |
| Transcript.ClientHelloV2VerifiesIff | crates/maverick-core/src/auth.rs:461-486 | the same for v2 |
| Transcript.OneTagVerifies | crates/maverick-core/src/auth.rs:923-925 | of all hellos that agree on everything but the tag at most one verifies |
| Transcript.ReusedTagIsCollision | crates/maverick-core/src/auth.rs:771-797 | a v1 tag that verifies for two hellos, paths, bindings or secrets that differ in anything it covers is an HMAC collision |
| Transcript.ReusedTagV2IsCollision | crates/maverick-core/src/auth.rs:828-863 | the same for v2, whose key depends on secret and epoch |
| Transcript.KeysAreSeparate | crates/maverick-core/src/auth.rs:911-921 | v2 keys of different secrets, epochs or directions come from different HKDF inputs |
| Transcript.HandshakeCarriesConfig | crates/maverick-client/src/tunnel.rs:449-498 | the hello carries the configuration, the nonce and the clock, and asks for the binding exactly when it is enabled and there |
| Transcript.HandshakeExists | crates/maverick-client/src/tunnel.rs:449-498 | a handshake is built exactly when a required binding is there and, for v2, the hint has 1 to 512 bytes |
| Transcript.SubsetOfBits | crates/maverick-client/src/tunnel.rs:587-589 | flags without an unrequested bit are a subset, numerically no larger |
| Transcript.HonestAnswerAccepted | crates/maverick-client/src/tunnel.rs:507-559 | the answer of a server with the same secret and binding is accepted, with its frame size, exactly when it stays within what was asked for |
| Transcript.AnswerAcceptedIff | crates/maverick-client/src/tunnel.rs:507-559 | a payload is accepted, with a frame size, if and only if it is byte for byte an answer that a server with the same secret and binding gives to this nonce within what was asked for; any other, a wrong tag included, is refused |
| Transcript.AnswerServesOneHandshake | crates/maverick-core/src/auth.rs:293-316 | one v1 payload accepted by two handshakes that differ in nonce, secret or covered binding is an HMAC collision |
| Transcript.AnswerV2ServesOneHandshake | crates/maverick-core/src/auth.rs:662-688 | the same for v2 |
| Transcript.UnrequestedIff | crates/maverick-client/src/tunnel.rs:587-589 | flags are refused exactly when some bit of them was not asked for |
| Transcript.AcceptedBindingWasRequested | crates/maverick-client/src/tunnel.rs:561-585 | an accepted answer with the binding flag means binding was enabled and present at the client |
| PeakCounter.PeakIsExact | crates/maverick-client/src/tun_runtime.rs:246-287 | in every interleaving, stale loads and spurious failures included: the count is the live guards, the peak never falls, never exceeds the largest count reached, covers every finished guard, and equals that maximum when no guard is mid-loop |
| PeakCounter.HighestIsMaximum | crates/maverick-client/src/tun_runtime.rs:264-287 | the reference value is the maximum over the run and is reached |
| PeakCounter.EveryPeakIsReached | crates/maverick-client/src/tun_runtime.rs:264-287 | for every n, n guards make count and peak n, and once they are dropped the count is zero and the peak still n |
| PeakCounter.GuardRaisesPeak | crates/maverick-client/src/tun_runtime.rs:264-287 | from any state an undisturbed guard adds one to the count and lifts the peak to the count it saw if that is higher |
| PeakCounter.LoopCanFinish | crates/maverick-client/src/tun_runtime.rs:264-280 | a guard in its loop, whatever it saw before, gets out in two steps once the others leave the peak alone |
| PeakCounter.SnapshotIsBounded | crates/maverick-client/src/tun_runtime.rs:246-258 | however stale its two loads, the peak a snapshot reports lies between the reported count and the largest count ever reached, and is that count when current and no guard is mid-loop |
| HttpConnect.GatherAnyChunking | crates/maverick-client/src/http_connect.rs:122-139 | however the stream is cut, a header ending within 8193 bytes is read, nothing after it is lost, and the buffer stays within 8192 + 1024 bytes |
| HttpConnect.BufferIsBounded | crates/maverick-client/src/http_connect.rs:122-139 | whatever arrives, header or not, the buffer never holds more than 8192 + 1024 bytes |
| HttpConnect.ChunkingNeverMattersIff | crates/maverick-client/src/http_connect.rs:122-139 | every cutting of a stream is read if and only if its header with the blank line ends within 8193 bytes |
| HttpConnect.ReadConnectAnyChunking | crates/maverick-client/src/http_connect.rs:122-158 | two cuttings give the same target and port or the same refusal; early data plus unread bytes is the stream after the blank line |
| HttpConnect.ReadConnectTarget | crates/maverick-client/src/http_connect.rs:122-158 | the reading loop is the specification function, and its buffer stays within 8192 + 1024 bytes |
| HttpConnect.RequestLineMeaning | crates/maverick-client/src/http_connect.rs:141-158 | a CONNECT line asks for the target its authority names, whatever header fields follow |
| HttpConnect.ConnectMeansItsAuthority | crates/maverick-client/src/http_connect.rs:122-158 | however it is cut, a stream that starts with a CONNECT line, header fields and a blank line gives the target and port of its authority with everything after kept, or is refused as its authority is |
| HttpConnect.RequestLineExact | crates/maverick-client/src/http_connect.rs:141-158 | a header is taken for a target if and only if its first line is CONNECT, an authority that reads as it, and an HTTP version, separated by white space |
| HttpConnect.AuthorityExact | crates/maverick-client/src/http_connect.rs:160-180 | an authority reads as target and port if and only if it falls into a host that names the target and text of the port, at the first closing bracket and colon or at the last colon |
| HttpConnect.AuthorityRoundTrip | crates/maverick-core/src/frame.rs:137-145 | reading an authority undoes writing it for IP targets, and for a domain if and only if it does not start with a bracket and does not read as an IP address |
| Decimal.ParseShow | crates/maverick-client/src/http_connect.rs:160-180 | a port survives printing and parsing |
| Decimal.ParsePortExact | crates/maverick-client/src/http_connect.rs:160-180 | a text reads as a port if and only if it is decimal digits of a 16-bit value, with or without a plus sign |
| Targets.DecodePayloadExact | crates/maverick-core/src/frame.rs:163-279 | an input decodes to a payload if and only if it is that payload's encoding and every length fits |
| Socks5.DecodeUdpExact | crates/maverick-client/src/socks5.rs:270-346 | a datagram is accepted if and only if re-encoding what it means gives it back |
| Socks5.UdpThroughTunnel | crates/maverick-client/src/socks5.rs:270-346 | every accepted datagram survives the tunnel byte for byte, one byte longer there for an IP target and two for a domain |
| Socks5.OnePeerOnly | crates/maverick-client/src/socks5.rs:251-268 | one association serves exactly the datagrams of one peer, the first acceptable one |
| Socks5.OwnerAddress | crates/maverick-client/src/socks5.rs:251-268 | that peer has the control connection's address |
| Socks5.Association.Accept | crates/maverick-client/src/socks5.rs:251-268 | the in-place pinning step |
| ConfigLocation.SanitiseIff | crates/maverick-core/src/config.rs:1004-1027 | a segment survives exactly when it is not empty, at most 48 long and made of safe characters, or is the stand-in itself; any other becomes the stand-in |
| ConfigLocation.LocationIsBounded | crates/maverick-core/src/config.rs:944-1027 | the reported location is never empty, never over 160 bytes and holds only the sanitised alphabet |
| ConfigLocation.LocationBuilder.AppendSegment | crates/maverick-core/src/config.rs:989-1027 | one more segment, or exactly the truncation marker for good |
| ConfigLocation.LocationBuilder.AppendLocation | crates/maverick-core/src/config.rs:959-987 | for any depth the recursion appends exactly the sanitised segments, or ends truncated |
| ConfigLocation.SafeUnknownParentLocation | crates/maverick-core/src/config.rs:944-957 | the result is the dot-join of the sanitised parent segments when at most 16 and at most 160 bytes, else exactly the truncation or root marker |
| TunHelper.Host.Smoke | crates/maverick-cli/src/main.rs:1306-1509 | every world the run passes through is a crash point as described, and no step takes away a link or route unless the link is its own and carries the identity; it succeeds exactly on a host without that link, route or journal whose commands all go through; and, successful or not, it leaves the host as it found it exactly as LeavesNoTrace says |
| TunHelper.Host.WriteJournal | crates/maverick-cli/src/main.rs:1167-1182 | the journal is only ever a new file; it is cut short if its contents fail to go out and complete if only the newline after them does |
| TunHelper.Host.ApplyAll | crates/maverick-cli/src/main.rs:1346-1436 | create, name, address, raise, route, probe: exactly when the link was made, when it carries the identity, and when the route was made |
| TunHelper.Host.Carry | crates/maverick-cli/src/main.rs:1333-1509 | a run, failed ones included, leaves the host as it found it if and only if no journal was made, or it was written out, what was made could be removed again and the journal with it |
| TunHelper.Host.Cleanup | crates/maverick-cli/src/main.rs:1511-1541 | in any world, a link without the identity and everything else stays as it is; clean exactly when every needed command went through, and then the link and its route are gone |
| TunHelper.Host.Rollback | crates/maverick-cli/src/main.rs:1543-1614 | success exactly as RollbackSucceeds says; before the journal goes only a link with the recorded identity, or its route, is removed |
| TunHelper.JournalCoversEverything | crates/maverick-cli/src/main.rs:1333-1346 | at every crash point anything the run made is covered by its complete journal; a pending journal and existing links are never replaced |
| TunHelper.RollbackAfterCrash | crates/maverick-cli/src/main.rs:1543-1614 | after a crash anywhere, a rollback whose commands go through succeeds if and only if the journal is complete and the link, if any, carries its identity; the host is then exactly as before the run |
| TunHelper.EventualRollbackRestores | crates/maverick-cli/src/main.rs:1543-1614 | any number of interrupted rollbacks later, one that goes through still restores the host |
| TunHelper.InterruptedStaysRecoverable | crates/maverick-cli/src/main.rs:1543-1614 | an interrupted rollback leaves a world the run itself could have left, journal included |
| TunHelper.UnnamedLinkIsKept | crates/maverick-cli/src/main.rs:1616-1626 | after a crash between creating and naming the link a rollback never removes it; it succeeds if and only if both its link probes fail, and then the journal is gone and the link is still there |
| TunHelper.SuccessfulRollbackIsClean | crates/maverick-cli/src/main.rs:1640-1653 | a successful rollback leaves no journal and no route; it leaves the link if and only if the link was there and the first probe failed |
| TunHelper.LongerNameBlocksRollback | crates/maverick-cli/src/main.rs:1558-1564 | with a route through another link whose name contains the recorded one, every rollback refuses |
| TunHelper.ExtendedNameBlocksRollback | crates/maverick-cli/src/main.rs:1558-1564 | so a route through tun10 blocks every rollback of tun1, and likewise for any name and one more character |
| TunHelper.RollbackSucceedsIff | crates/maverick-cli/src/main.rs:1543-1614 | where the listing shows link names only, a rollback whose commands all go through succeeds if and only if the link carries the identity or is absent, a route through it has the link, and no other routed name contains its name |

## Left out

- TLS, HTTP/2, QUIC and WebSocket internals: only capacity, chunks, closing, reset and trailers are kept, as events.
- The WebSocket relay and its frame reader, and `validate_negotiated_max_frame_size`: short branch lists.
- The batcher, padding and cover-traffic policies: their output, any list of frames, is a parameter.
- The server crate, configuration parsing and validation, listeners, logging, QR and clipboard code.
- The strength of HMAC and HKDF and constant-time comparison: any functions of the right type will do.
- Real time and fairness: a timeout is an abort that may come at any await; the histogram is kept apart from the pool's
  state machine, and the runtime counters of stream resets and send stalls, which nothing else reads, are not kept.
- The OpenUdp payload, the error code payload and `usize` overflow of a configured frame size: single-field codecs.
- The payload and hello decoders advance a cursor over their input; here each read returns what is left.
- Sender.SendThenReceive: for frame limits up to 2^32 - 15, so that every frame within the limit meets the condition of
  `Grpc.GrpcRoundTrip`.
- Socks5.UdpThroughTunnel: for inputs of less than 2^32 bytes; a UDP datagram has at most 65,535.
- PoolState.ConnectionPool.Checkout: the law is kept while no counter it speaks of is about to saturate; past that point
  `PoolWidth.CountIsExactIff` says what happens.
- PeakCounter.PeakIsExact: atomics are sequentially consistent steps; loads of the peak may be stale, but no weaker
  memory ordering is modelled.
- PoolWidth.MachineFollowsIdeal: stated below 2^64 installs, past which the generation number itself stops growing.
- TunHelper.Host.Smoke: nobody else touches the host during a run, a prefix has at most one route per link, and the
  approval gate, the addresses and the unused journal fields are not modelled.
- TunHelper.RollbackAfterCrash: asks that no existing link already carries the run's random identity.
- H3Channel.H3Sender.FinishResponse: the prepared frames of the closing CloseFlow are a parameter, so its flow id is not
  tracked.
- The relay flow id: both relays use the same one, 1, as the opening frame does.
- Relay.WriteAll: the idle timer restarted by each write is a missing answer in the list of writes.
