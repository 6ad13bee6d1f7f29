# Verification model of the proxy core

A Dafny model of the parts of this proxy where correctness is hard to see from one function: the
byte pipe under its tunnels, the state machines behind its locks, and the wire formats that its
components must agree on. `dafny verify dfyconfig.toml` checks everything.

**The byte pipe.** `Bytes`, `Buffers`, `MultiBuffers`, `ByteContainer`, `Compact`, `Hunks`, `HunkConn`,
`MultiHunkConn`, `Pipe` and `Duplex`. Buffers, pool, readers and connections are classes that update
their fields as the source does. The ghost map `Pool.view` names every live buffer and what it holds;
`Pool.Valid` says that no array is held twice, is free while held, or is free twice. An operation
states its effect as a change of that map, so ownership and content are specified together. The main
result is `Duplex.Run`: two connections over a tunnel are two FIFO byte streams, over every run of
writes and reads at both ends, failed writes included. Links are unreliable by default: sending may fail
at any time. On a link that is marked as reliable it never does, and then nothing offered is lost.

**State machines.** `Reconnect` (the tunnel agent), `AppServer`, `AppRuns`, `AppEffects`, `AppZone`,
`AppPublish` and `AppHealth` (instances, requests, published snapshots and health checks), `Sticky`, `StickyRuns`, `Dispatch`,
`Rotation` and `StreamIds` (routing and allocation). The concurrent ones are step relations with one step per critical section,
or per access to a shared map where there is no lock; invariants are proved for every run.

**Wire formats.** `ClientHello` (section 4.1.2 of RFC 8446 and section 3 of RFC 6066), `Socks`,
`Dialler`, `Relay` and `Streams` (sections 3 to 6 of RFC 1928, and the VLESS header), `Framing`
(packets over WebSocket messages). Parsers that consume a stream are proved against functions on the
whole stream, for every way the network cuts it. `Wrappers` holds the shared option type.

Where the code does less than its comments or callers suggest, the model follows the code. Each of
these has a failing input or run, and a theorem that says exactly when the property holds:

- The hunk reader delivers part of a hunk twice when an empty hunk is followed by one of more than
  8192 bytes (`Hunks.EmptyThenLongRepeats`); `Hunks.DeliverExact` has the exact streams. Writing
  byte slices never sends such a stream (`Pipe.Connection.WriteHunks`); writing a list of buffers can,
  for some capacities, exactly if the hunks in flight hold such a pair (`Pipe.Connection.WriteMultiBuffer`, `Hunks.SafeToSendIff`).
- When the hunk stream ends behind an empty hunk, the reader's new buffer is dropped without being
  released (`Hunks.OneVoidDrops`); this happens exactly on streams that end in an odd number of empty
  small hunks (`Hunks.DropsIff`, `HunkConn.Drain`). The pool stays in order.
- `Compact` loses bytes behind a partly read buffer and panics on an empty one
  (`Compact.PartlyReadLoses`, `Compact.EmptyPanics`, `Compact.LosslessIffFits`).
- A profile update during a dial can leave a tunnel to the old server (`Reconnect.StaleTunnel`,
  `Reconnect.StaleIff`), and a read loop that fails before its tunnel is installed leaves a tunnel that
  nobody reads (`Reconnect.ReaderlessTunnel`, `Reconnect.ReaderIff`).
- A published snapshot shares its profiles, so a published server can be active without an instance
  (`AppPublish.ActiveWithoutInstance`, `AppPublish.PublishedSettledIff`).
- Two publications can overtake each other, and the older state stays published
  (`AppPublish.DeletedStaysPublished`, `AppPublish.LatestIff`).
- The health stored for a server may be that of an instance it no longer has
  (`AppHealth.StaleHealthReached`, `AppHealth.StaleHealth`, `AppHealth.HealthBelongs`).
- Sticky keys of IPv6 clients can collide (`Sticky.KeyCollision`, `Sticky.KeyIff`).
- Two simultaneous first requests can be sent to two servers (`StickyRuns.TwoFirstRequests`,
  `StickyRuns.OneServerIff`), and a cleanup pass can delete a record that was renewed after the pass
  had tested it (`StickyRuns.RenewedThenSwept`, `StickyRuns.MissIff`).
- Round robin is unfair across the wrap of its counter unless the number of servers divides 2^32
  (`Rotation.UnfairAcrossWrap`, `Rotation.FairIff`).
- Two sessions can get the same stream ID when both run past the last one (`StreamIds.TwoGetOne`,
  `StreamIds.DistinctIff`).
- A packet object that was written stays sealed, so writing it again seals it twice
  (`Framing.Resend`). No caller in this program writes a packet object twice.

## Model

| member | source | states |
|---|---|---|
| Buffers.Pool.Get | internal/xray_core/common/buf/buffer.go:28-33 | an array no live buffer holds and that is no longer free: a free one or a new one, at the pool's choice |
| Buffers.Pool.Put | internal/xray_core/common/buf/buffer.go:66-68 | an array that no live buffer holds becomes free, once; `Valid` rules out a second time |
| Buffers.Buffer.New | internal/xray_core/common/buf/buffer.go:27-38 | an empty buffer of 8192 bytes; every other live buffer is unchanged and no array is shared with it |
| Buffers.Buffer.NewExisted | internal/xray_core/common/buf/buffer.go:40-54 | takes over a foreign array of at least 8192 bytes whole, with its content |
| Buffers.Buffer.Release | internal/xray_core/common/buf/buffer.go:57-69 | the buffer stops being live and has no array; the array is free again exactly if it has the regular size; a second release changes nothing |
| Buffers.Buffer.Write | internal/xray_core/common/buf/buffer.go:147-151 | appends what fits behind the end cursor, and says how much that was |
| Buffers.Buffer.Read | internal/xray_core/common/buf/buffer.go:154-165 | takes a prefix; reports EOF exactly on an empty buffer; a drained buffer gets its whole room back |
| Buffers.Buffer.ReadFrom | internal/xray_core/common/buf/buffer.go:168-172 | moves what fits from another buffer; nothing moved is lost or doubled |
| Buffers.Buffer.Extend | internal/xray_core/common/buf/buffer.go:85-93 | lengthens the content by n bytes and keeps what was there |
| Buffers.Buffer.Overwrite | internal/xray_core/transport/internet/grpc/encoding/multiconn.go:106 | the front of the content becomes what fits of the given bytes, the rest stays |
| MultiBuffers.MergeMulti | internal/xray_core/common/buf/multi_buffer.go:14-20 | contents are joined in order and no buffer is copied |
| MultiBuffers.MergeBytes | internal/xray_core/common/buf/multi_buffer.go:23-38 | content becomes old content followed by src; every new buffer is unread, of regular size and not empty; other buffers untouched |
| MultiBuffers.ReleaseMulti | internal/xray_core/common/buf/multi_buffer.go:41-47 | exactly the buffers of the list stop being live |
| MultiBuffers.SplitBytes | internal/xray_core/common/buf/multi_buffer.go:51-74 | returns the first min(want, total) bytes, keeps the rest in order, releases just the drained buffers |
| MultiBuffers.SplitFirst | internal/xray_core/common/buf/multi_buffer.go:103-112 | the first buffer and the others, or none |
| MultiBuffers.IsEmpty | internal/xray_core/common/buf/multi_buffer.go:147-154 | true exactly if no byte is held |
| MultiBuffers.ToString | internal/xray_core/common/buf/multi_buffer.go:157-163 | all bytes, in order |
| ByteContainer.Container.Read | internal/xray_core/common/buf/multi_buffer.go:171-179 | the take operation of the queue, EOF exactly when it is empty |
| ByteContainer.Container.Write | internal/xray_core/common/buf/multi_buffer.go:189-192 | the append operation of the queue |
| ByteContainer.Container.WriteMultiBuffer | internal/xray_core/common/buf/multi_buffer.go:195-199 | the append operation of the queue, by handing buffers over |
| ByteContainer.Container.ReadMultiBuffer | internal/xray_core/common/buf/multi_buffer.go:182-186 | the drain operation of the queue |
| ByteContainer.Container.Close | internal/xray_core/common/buf/multi_buffer.go:202-205 | the queue is empty and every buffer of it is released |
| ByteContainer.Container.Run | internal/xray_core/common/buf/multi_buffer.go:166-199 | every interleaving of the four operations answers as one byte queue does, zero-length and exact-fit reads and partly read lists included, and touches no foreign buffer |
| ByteContainer.FifoConserves | internal/xray_core/common/buf/multi_buffer.go:166-199 | that queue loses, invents and reorders nothing over any operations, and each answer fits its operation |
| ByteContainer.OneConserves | internal/xray_core/common/buf/multi_buffer.go:171-179 | one operation does not either, and EOF means that the queue is empty |
| Compact.LosslessIffFits | internal/xray_core/common/buf/multi_buffer.go:79-100 | Compact keeps the bytes if and only if no merge meets an empty buffer (a panic) or lacks room behind a partly read one |
| Compact.UnreadFits | internal/xray_core/common/buf/multi_buffer.go:79-100 | lists of unread buffers, none empty behind the first, meet that condition |
| Compact.PartlyReadLoses | internal/xray_core/common/buf/buffer.go:168-172 | the smallest losing family: a full, partly read buffer swallows its neighbour |
| Compact.NeverLonger | internal/xray_core/common/buf/multi_buffer.go:79-100 | Compact never invents bytes |
| Compact.ResultDense | internal/xray_core/common/buf/multi_buffer.go:87-96 | adjacent results together exceed 8192 bytes; results are at most 8192 long if the inputs are |
| Compact.CountBound | internal/xray_core/common/buf/multi_buffer.go:79-100 | a dense list has at most 2 * (total / 8192) + 1 buffers |
| Compact.CompactCorrect | internal/xray_core/common/buf/multi_buffer.go:79-100 | the four facts together for a whole list: lossless iff the condition, dense, bounded in number, bounded in size |
| Compact.Compact | internal/xray_core/common/buf/multi_buffer.go:79-100 | the in-place loop computes that list function, releases just the merged buffers, and panics exactly when the function does |
| HunkConn.HunkReaderWriter.ForceFetch | internal/xray_core/transport/internet/grpc/encoding/hunkconn.go:76-90 | the next hunk becomes the cursor, in an array nobody else holds |
| HunkConn.HunkReaderWriter.Read | internal/xray_core/transport/internet/grpc/encoding/hunkconn.go:92-106 | the stream function of a byte read |
| HunkConn.HunkReaderWriter.ReadMultiBuffer | internal/xray_core/transport/internet/grpc/encoding/hunkconn.go:108-130 | the stream function of a buffer read, by the zero-copy or the copying branch; the pool stays in order; a failing call leaves one more live buffer, empty, exactly if it fetched a hunk before it failed, and else changes nothing |
| HunkConn.Drain | internal/xray_core/transport/internet/grpc/encoding/hunkconn.go:108-130 | reading to the end and releasing what comes leaves the live buffers as they were, or one empty buffer too many, exactly by the parity of the empty small hunks at the end of the stream |
| HunkConn.HunkReaderWriter.Write | internal/xray_core/transport/internet/grpc/encoding/hunkconn.go:132-142 | one hunk with just these bytes, or nothing after an error |
| Hunks.DeliverExact | internal/xray_core/transport/internet/grpc/encoding/hunkconn.go:108-130 | the reader delivers every received byte once and in order if and only if no empty small hunk is followed by one over 8192 bytes at its turn |
| Hunks.DeliverLength | internal/xray_core/transport/internet/grpc/encoding/hunkconn.go:108-130 | otherwise it delivers exactly 8192 bytes too many for each such pair |
| Hunks.NonEmptyNeverRepeats | internal/xray_core/transport/internet/grpc/encoding/hunkconn.go:108-130 | streams of non-empty hunks, of any length and capacity, are delivered exactly |
| Hunks.SmallNeverRepeats | internal/xray_core/transport/internet/grpc/encoding/hunkconn.go:108-130 | so are streams of hunks of at most 8192 bytes, empty ones included |
| Hunks.SafeToSendIff | internal/xray_core/transport/internet/grpc/encoding/hunkconn.go:118-142 | a list of hunks is delivered exactly for every choice of capacities by the receiver if and only if no empty one is followed by one over 8192 bytes |
| Hunks.EmptyThenLongRepeats | internal/xray_core/transport/internet/grpc/encoding/hunkconn.go:118-130 | the smallest failing stream and what it delivers |
| Hunks.DropsIff | internal/xray_core/transport/internet/grpc/encoding/hunkconn.go:123-129 | reading to the end drops a buffer if and only if the stream ends in an odd number of empty small hunks |
| MultiHunkConn.MultiHunkReaderWriter.ReadMultiBuffer | internal/xray_core/transport/internet/grpc/encoding/multiconn.go:86-113 | one message becomes buffers with just its bytes; empty slices vanish |
| MultiHunkConn.MultiHunkReaderWriter.WriteMultiBuffer | internal/xray_core/transport/internet/grpc/encoding/multiconn.go:115-134 | one message with just the content, or nothing; every buffer is released either way |
| Pipe.WriteMultiBuffer | internal/xray_core/common/buf/multi_buffer.go:115-131 | one hunk per buffer, in order, up to the first error; what is left is the list behind the failing buffer |
| Pipe.WriteSequentially | internal/xray_core/common/buf/writer.go:62-66 | every buffer is released exactly once, wherever the transport fails |
| Pipe.BufferedReader.ReadMultiBuffer | internal/xray_core/common/buf/reader.go:59-67 | gives away what is buffered, else the next of the source; the remaining byte string is conserved |
| Pipe.BufferedReader.Read | internal/xray_core/common/buf/reader.go:31-56 | returned bytes followed by the remaining ones are the remaining ones of before; as many as are wanted come out of what is buffered, or else out of the next chunk of the source; a failed read on an open source has nothing remaining; a read that returns nothing without failing uses up a blank of the stream; on a steady stream no buffer is dropped |
| Pipe.ReadAll | internal/xray_core/common/buf/reader.go:31-56 | the same over any sequence of read sizes, on either kind of tunnel: no result exceeds its size, a read fails on an open source only when everything was returned, and no more reads come out blank than the stream has blanks |
| Pipe.ReadMany | internal/xray_core/transport/internet/grpc/encoding/hunkconn.go:92-130 | against any peer, the bytes returned and still to come are the stream's bytes if and only if the stream does not repeat; failing and blank reads are bounded as in ReadAll |
| Pipe.Connection.WriteHunks | internal/xray_core/common/net/cnc/connection.go:94-97 | a prefix of the data goes in flight, all of it on success, in non-empty hunks of at most 8192 bytes |
| Pipe.Connection.WriteMessage | internal/xray_core/common/net/cnc/connection.go:94-97 | the same through a multi-hunk tunnel, in one message |
| Pipe.Connection.Write | internal/xray_core/common/net/cnc/connection.go:89-98 | the live buffers afterwards are those of before, so each buffer taken for the write is released once, on success and on failure; it fails only on a closed connection or a failed send, which a reliable link rules out |
| Pipe.Connection.WriteMultiBuffer | internal/xray_core/common/net/cnc/connection.go:100-107 | the given buffers are released in every case and a prefix of them goes in flight; in hunk mode the peer gets just these bytes if and only if the hunks in flight do not repeat, which holds if no empty one is followed by one over 8192 bytes |
| Duplex.PendingIsInFlight | internal/xray_core/transport/internet/grpc/encoding/hunkconn.go:92-142 | what a reader on a stream of regular hunks will return is what its peer has in flight, and its blank reads are the empty messages in flight |
| Duplex.WriteAt | internal/xray_core/common/net/cnc/connection.go:89-98 | a write adds to what is under way in its direction and leaves the other direction alone; it fails only at an end that is closed or on a link that can fail, and always on a connection that is done |
| Duplex.ReadAt | internal/xray_core/common/net/cnc/connection.go:79-81 | a read takes the front of what is under way to it and leaves the other direction and all foreign buffers alone; one that returns nothing without failing has taken an empty message |
| Duplex.Receive | internal/xray_core/common/net/cnc/connection.go:79-81 | a read that fails on an open connection has everything that was sent; in hunk mode one that succeeds returns something |
| Duplex.Run | internal/xray_core/common/net/cnc/connection.go:79-98 | the pipe theorem: over every run of writes and reads at both ends, the bytes the reads returned ++ buffered ++ in flight are the bytes the writes put in flight, in both directions and both modes; those are all bytes offered unless a write failed, and at an open end of a reliable link none fails; a failed read at an open end has had them all; blank reads are none in hunk mode and at most the empty writes of the peer in multi-hunk mode; the live buffers are those of before and the two readers' lists |
| Duplex.OpenHunks | internal/xray_core/transport/internet/grpc/encoding/hunkconn.go:42-74 | two new hunk connections meet the assumptions of the pipe theorem, and cannot fail to write if their links are reliable |
| Duplex.OpenMulti | internal/xray_core/transport/internet/grpc/encoding/multiconn.go:37-69 | two new multi-hunk connections meet them too |
| Reconnect.InvNext | internal/tunnel/goremote/agent.go:111-162 | every step keeps: one dialler at most, `reconnecting` exactly when there is one, no tunnel meanwhile, no sleeper without it, every connection accounted for |
| Reconnect.Safety | internal/tunnel/goremote/agent.go:111-162 | the invariant holds in every reachable state, for any number of threads |
| Reconnect.InstallsIntoNothing | internal/tunnel/goremote/agent.go:151-161 | installing never overwrites a tunnel, and what a caller returns is the tunnel of that moment |
| Reconnect.CallReturns | internal/tunnel/goremote/agent.go:111-162 | over every run a call ends exactly when it finds a tunnel or stores the outcome of its dial, and returns that tunnel, the connection of its one dial, or an error if that dial failed |
| Reconnect.TunnelUntil | internal/tunnel/goremote/agent.go:208-243 | over every run a tunnel stays current exactly until its writer or reader fails, the profile changes or the agent closes, and from then on it is closed |
| Reconnect.ClosedNext | internal/tunnel/goremote/agent.go:132-138 | nothing else is closed but connections that got no cipher, and nothing is opened again |
| Reconnect.Redials | internal/tunnel/goremote/agent.go:193-216 | after a failed write the next caller can install a new tunnel to the server that the profile then names |
| Reconnect.SleeperIsWoken | internal/tunnel/goremote/agent.go:115-123 | no lost wake-up: once the dialler has taken its three steps, its sleepers have been woken |
| Reconnect.SleepsUntilInstall | internal/tunnel/goremote/agent.go:115-155 | until then a sleeper sleeps and the dialler gets nearer by its own steps only |
| Reconnect.SomeoneCanMove | internal/tunnel/goremote/agent.go:111-162 | no deadlock: a caller that has not returned can move, or sleeps while a dialler can |
| Reconnect.TunnelOrigin | internal/tunnel/goremote/agent.go:130-154 | in every run the current tunnel was dialled by its thread with the profile that it had read, installed, and not retired since |
| Reconnect.OriginCounts | internal/tunnel/goremote/agent.go:130-161 | and whatever was dialled, installed and not retired since is the current tunnel |
| Reconnect.StaleIff | internal/tunnel/goremote/agent.go:130-154 | the current tunnel of a run leads to another server than the profile names if and only if the last update between reading the profile and installing the tunnel, if any, named another server than the one read |
| Reconnect.StaleTunnel | internal/tunnel/goremote/agent.go:218-227 | a run of six steps that leaves a tunnel to the server that was replaced |
| Reconnect.ReaderIff | internal/tunnel/goremote/agent.go:142-155 | the current tunnel has a running read loop if and only if the loop did not fail between the dial and the install |
| Reconnect.ReaderlessTunnel | internal/tunnel/goremote/agent.go:165-166 | a run of six steps after which the tunnel is open and nobody reads from it |
| AppServer.ManageSettles | internal/app/appserver.go:161-199 | for every iteration order and every create or initialise failure, Active means having an instance, and live instances are just the referenced ones |
| AppServer.StopAllSound | internal/app/appserver.go:166-172 | the first loop closes the instances of inactive servers and leaves no stray one |
| AppServer.StartAllSound | internal/app/appserver.go:175-196 | the second loop settles every server it visits and undoes no other |
| AppServer.ManageInstances | internal/app/appserver.go:161-199 | the two loops compute the store function that these lemmas are about |
| AppRuns.AddFine | internal/app/appserver.go:366-389 | an added server, which the web handler makes inactive, keeps the A-zone in order |
| AppRuns.UpdateFine | internal/app/appserver.go:392-420 | a profile change with its restart keeps it |
| AppRuns.ApplyFine | internal/app/appserver.go:342-355 | the second lock section of a switch keeps it, even if its server has been deleted meanwhile |
| AppRuns.LoadFine | internal/app/appserver.go:298-318 | bootstrap from the file establishes it |
| AppRuns.InvNext | internal/app/appserver.go:334-447 | every step, at every release of a lock, keeps the invariant |
| AppRuns.Lifecycle | internal/app/appserver.go:161-199 | over every run: live instances are exactly those that configState refers to, and Active is equivalent to having one |
| AppEffects.ManageOne | internal/app/appserver.go:161-199 | settled servers are left alone, an inactive one ends without instance, an active one without instance gets one or is made inactive, as its own start turned out |
| AppEffects.SwitchEffect | internal/app/appserver.go:342-355 | switching a server starts or stops that one; no other is stopped, restarted or switched |
| AppEffects.UpdateEffect | internal/app/appserver.go:392-412 | the new profile is in place, a running server is started again with it, no other is touched |
| AppHealth.LiveNext | internal/app/appserver.go:334-447 | an instance ends by exactly these steps: its server is deleted, given a new profile, or switched off |
| AppHealth.LiveIff | internal/app/appserver.go:334-447 | over every run: an instance is live, for the same server, if and only if no such step came, and never comes back |
| AppHealth.HealthBelongs | internal/app/appserver.go:591-625 | what a round of checks stores for a server was measured on the instance the server has now if and only if no step between its two lock sections ended that instance |
| AppHealth.StaleHealth | internal/app/appserver.go:611-625 | in every state, a restart during a round leaves a new instance with the result of the old one |
| AppHealth.StaleHealthReached | internal/app/appserver.go:611-625 | a run of six steps from the empty store in which this happens |
| AppZone.SwitchOutcome | internal/app/appserver.go:334-355 | a whole request to switch a server, over both lock sections and whatever comes between: unless its ID is deleted in between, the server that had the ID is afterwards active iff that was asked for and it was so already or its start succeeds, with the instance that goes with it; all other servers are as they were |
| AppZone.ServerUntil | internal/app/appserver.go:423-447 | a server stays in configState exactly until its ID is deleted, and does not come back |
| AppZone.OnlyConcerned | internal/app/appserver.go:334-447 | no step changes profile, flag, instance, health or metrics of a server that it does not concern, rounds of checks included |
| AppZone.ConcernedEffect | internal/app/appserver.go:392-447 | what an update and a deletion leave of their server, and what health checks store for theirs |
| AppZone.ArrivalEffect | internal/app/appserver.go:269-327 | an added server is inactive; a loaded one is started iff it was saved as active |
| AppZone.NothingBlocks | internal/app/appserver.go:161-199 | every lock section can proceed in every state |
| AppRuns.DeepCopy | internal/app/appserver.go:203-226 | the loop, in any order, makes new objects with the same values and shared profiles |
| AppRuns.Snapshots | internal/app/appserver.go:230-239 | in every run and for every interleaving of publications, the B-zone shows a state that the A-zone was in |
| AppPublish.FlagNext | internal/app/appserver.go:342-355 | the Active flag of a profile, published or not, changes by exactly the second sections of UpdateServerActiveState that ask for another value of it, unless the start they cause fails |
| AppPublish.OnlyActiveShowsThrough | internal/app/appserver.go:214-222 | later A-zone changes leave the published objects as they are; their flag changes with exactly those steps |
| AppPublish.PublishedSettledIff | internal/app/appserver.go:215 | over every run: a published server has Active equivalent to an instance if and only if its flag was switched an even number of times since the state that the snapshot shows |
| AppPublish.ActiveWithoutInstance | internal/app/appserver.go:215 | a run of five steps after which a published server is active and has no instance |
| AppPublish.LastPublication | internal/app/appserver.go:230-239 | what is published is the A-zone as it was at the copy of the last publication |
| AppPublish.LatestIff | internal/app/appserver.go:230-239 | with no call between copying and storing, the latest copy is the published one if and only if no call copied later and stored earlier than the last publication |
| AppPublish.PublishedIsCurrent | internal/app/appserver.go:230-239 | then, if every change was followed by a copy, the B-zone shows the A-zone |
| AppPublish.DeletedStaysPublished | internal/app/appserver.go:230-239 | a run after which a deleted server stays published with nothing pending |
| Dispatch.FindByRemarks | internal/core/dispatcher/dispatcher.go:358-364 | some server with these remarks, whichever the map yields first; none only if there is none |
| Dispatch.BuildTable | internal/core/dispatcher/dispatcher.go:343-401 | the table is sorted by priority; every entry is a rule with a route to an active, healthy, listening server; no rule occurs more often than it was given, and one that has a route in any iteration order exactly as often |
| Dispatch.Insert | internal/core/dispatcher/dispatcher.go:394-396 | sorted, and a permutation with the new entry |
| Dispatch.MatchRules | internal/core/dispatcher/dispatcher.go:210-294 | the match is virtual or leads to a server that is active and up, and has least priority value among all matching entries of that kind; there is none only if there is no such entry |
| Dispatch.LeastConnections | internal/core/dispatcher/dispatcher.go:40-59 | a healthy server with an instance, metrics and the fewest connections; none only if there is no candidate |
| Dispatch.Available | internal/core/dispatcher/dispatcher.go:72-84 | the IDs of the active and healthy servers, ascending |
| Dispatch.InTurnUnique | internal/core/dispatcher/dispatcher.go:83-84 | that order does not depend on the iteration of the map |
| Dispatch.LoneServer | internal/core/dispatcher/dispatcher.go:50-90 | a single server is chosen by either balancer exactly if it is active, up and has an instance, and for least connections also metrics |
| Dispatch.Dispatcher.UpdateRoutingTables | internal/core/dispatcher/dispatcher.go:343-401 | the stored table is sorted; DIRECT and REJECT rules are all in it, as themselves; a rule that names a server leads to one of that name that was active, up and listening, and is in the table if it could name no other |
| Dispatch.Dispatcher.GetBackend | internal/core/dispatcher/dispatcher.go:425-441 | the least loaded candidate, or the server whose turn it is; refused exactly when there is none or it has no instance; the counter moves once |
| Dispatch.Dispatcher.TrySticky | internal/core/dispatcher/dispatcher.go:296-318 | the cached server, if valid and listening, with the renewed cache |
| Dispatch.Dispatcher.Dispatch | internal/core/dispatcher/dispatcher.go:194-340 | a rule decides iff a matching one is virtual or leads to a server that is active and up, with least priority value; where all matching rules up to its value agree, a virtual target is the decision; else the cache, else the balancer, whose choice the cache remembers; any server returned is active and up |
| Rotation.RoundRobin.Select | internal/core/dispatcher/dispatcher.go:86-87 | the counter's old value modulo n, and the counter goes up in uint32 |
| Rotation.RoundRobin.SelectMany | internal/core/dispatcher/dispatcher.go:70-90 | over a window without wrap each of n servers is picked floor(m/n) or ceil(m/n) times |
| Rotation.FairWithoutWrap | internal/core/dispatcher/dispatcher.go:86-87 | the same of the picks as a function |
| Rotation.UnfairAcrossWrap | internal/core/dispatcher/dispatcher.go:86-87 | a window across the wrap serves one server twice, for every n that does not divide 2^32 |
| Rotation.FairIff | internal/core/dispatcher/dispatcher.go:86-87 | fair on every window if and only if n divides 2^32 |
| Rotation.IdsDistinct | internal/tunnel/goremote/session.go:53-57 | two allocated stream IDs agree if and only if their distance is a multiple of 65530; none is 0 or the UDP stream's |
| Rotation.SessionManager.NewTCPSession | internal/tunnel/goremote/session.go:52-62 | allocates the next ID and stores the session under it |
| StreamIds.DistinctIff | internal/tunnel/goremote/session.go:53-57 | with allocations running concurrently, up to 65530 of them have got different IDs if and only if none began while another had still to reset the counter |
| StreamIds.TwoGetOne | internal/tunnel/goremote/session.go:54-56 | a run of four steps in which two sessions get ID 1 |
| Sticky.StickyManager.ShouldApply | internal/core/dispatcher/sticky_manager.go:67-87 | applies iff the TTL is positive and the mode is global, or conditional with some matcher |
| Sticky.StickyManager.Get | internal/core/dispatcher/sticky_manager.go:92-131 | the lookup function on the cache, or nothing when switched off |
| Sticky.StickyManager.Set | internal/core/dispatcher/sticky_manager.go:134-144 | stores a record with a full TTL unless switched off |
| Sticky.StickyManager.Cleanup | internal/core/dispatcher/sticky_manager.go:183-192 | removes exactly the expired records, in any order |
| Sticky.KeyIff | internal/core/dispatcher/dispatcher.go:299 | two pairs share a key iff they are equal or one client text starts with the other and a colon and the hosts make up for the difference |
| Sticky.OwnKey | internal/core/dispatcher/dispatcher.go:299 | the key of an IPv4 client belongs to no other pair |
| Sticky.LookupIff | internal/core/dispatcher/sticky_manager.go:92-131 | a lookup finds exactly a server whose record is in time and which is active and up; it renews the record or removes it |
| StickyRuns.FirmNext | internal/core/dispatcher/sticky_manager.go:92-192 | while requests are in time and no renewal is overtaken, the record of a key stays until its deadline, through every single access to the cache |
| StickyRuns.Affinity | internal/core/dispatcher/dispatcher.go:296-331 | over every run: within the TTL, while the server is fit and no renewal is overtaken by a cleanup, every request of the key gets the server of the standing record, whatever else happens |
| StickyRuns.MissIff | internal/core/dispatcher/sticky_manager.go:126-128 | when nothing was stored meanwhile and no delete is pending, a request in time misses a record that stood if and only if an earlier renewal met a key that a cleanup pass had deleted or was about to delete |
| StickyRuns.RenewedThenSwept | internal/core/dispatcher/sticky_manager.go:183-192 | a run in which a pass deletes a record that was renewed after the pass had tested it |
| StickyRuns.LatestAnswer | internal/core/dispatcher/dispatcher.go:300-330 | over every run a request is answered with the server of the latest store before it looked, or with the one it stores itself |
| StickyRuns.OneServerIff | internal/core/dispatcher/dispatcher.go:300-330 | from the first request on, all answers to a key name one server if and only if all stores of it do |
| StickyRuns.SecondStore | internal/core/dispatcher/dispatcher.go:320-330 | once a record stands, while requests are in time and no renewal is overtaken, a second store of its key comes only from a request that was on its way to the balancer when the first was made |
| StickyRuns.TwoFirstRequests | internal/core/dispatcher/dispatcher.go:300-330 | a run in which two first requests get two servers, and a third that of the later store |
| StickyRuns.AnswersAreValid | internal/core/dispatcher/dispatcher.go:300-318 | over every run an answer out of the cache names a server whose record was in time when it was tested, and which was then active, up and listening |
| StickyRuns.LookupAlone | internal/core/dispatcher/sticky_manager.go:92-131 | the steps of a lookup that nothing interrupts do what Get does |
| StickyRuns.SweepAlone | internal/core/dispatcher/sticky_manager.go:183-192 | the steps of a pass that nothing interrupts do what Cleanup does, in any order |
| ClientHello.SniffTargetTLS | internal/core/gateway/gateway.go:162-251 | only peeks; an answer is what the whole stream says; stuck only while the record is not fully buffered |
| ClientHello.SniffHello | internal/core/gateway/gateway.go:184-251 | the walk over the fields stays in bounds on every byte string |
| ClientHello.SniffExtensions | internal/core/gateway/gateway.go:222-250 | the loop ends on every byte string, because the block shrinks |
| ClientHello.SniffsEncodedName | internal/core/gateway/gateway.go:162-251 | from every well-formed ClientHello with any extensions before server_name, exactly the encoded name |
| ClientHello.NoNameNoHost | internal/core/gateway/gateway.go:222-250 | an error when there is no server_name extension |
| ClientHello.NoBlockNoHost | internal/core/gateway/gateway.go:208-212 | and when there is no extension block at all |
| ClientHello.WalkIff | internal/core/gateway/gateway.go:222-250 | the exact language: a name is returned iff the block is extensions of other types followed by a server_name that carries it |
| ClientHello.HelloIff | internal/core/gateway/gateway.go:184-251 | the exact language on a message: fields as long as they say, an extension block that names the host, and anything behind it |
| ClientHello.RecordIff | internal/core/gateway/gateway.go:162-182 | the exact language on a stream: one whole handshake record with such a message |
| ClientHello.OneHello | internal/core/gateway/gateway.go:162-251 | a ClientHello byte by byte |
| ClientHello.WalksHello | internal/core/gateway/gateway.go:187-220 | the walk finds the extension block behind the session ID, cipher suites and compression methods |
| Streams.Reader.FillBuffer | internal/core/gateway/gateway.go:306-316 | nothing is consumed; ready iff enough is buffered; spins exactly on a partly filled buffer that is too short |
| Streams.Reader.Read | internal/tunnel/vless/handler_ws.go:74-75 | conserves the stream, and a read of the buffer's size or more leaves nothing buffered |
| Relay.ClientHandshake | internal/core/gateway/socks5.go:70-82 | consumes exactly a greeting, with however many methods, and answers it |
| Relay.AcceptableIff | internal/core/gateway/socks5.go:21-67 | the requests that are accepted are exactly the encoded CONNECT requests of version 5 |
| Relay.SniffRequest | internal/core/gateway/socks5.go:21-67 | consumes nothing; finds the target that the consuming parser finds |
| Relay.SniffTarget | internal/core/gateway/socks5.go:15-68 | fails, gets stuck or returns the target, and leaves request and payload in the reader |
| Relay.Handshake | internal/tunnel/vless/socks.go:15-77 | takes exactly the handshake off the stream, whatever the chunking, and decodes it; the payload is left |
| Relay.Uplink | internal/tunnel/vless/handler_ws.go:72-89 | no byte is stranded: the remote end gets the header and every client byte |
| Relay.HandleConnection | internal/tunnel/vless/handler_ws.go:35-89 | the remote end gets the VLESS header of the decoded target and then the payload |
| Relay.Relay | internal/core/gateway/socks5.go:99-141 | end to end: a target is found if and only if a greeting and an acceptable request come, unless the request is only partly buffered; the header names the target the dispatcher was asked about, and behind it comes exactly the client's payload |
| Socks.BuildRequest | internal/core/gateway/socks_client.go:57-80 | the CONNECT request of the normalised destination, refused exactly for a name over 255 bytes; the port is cut to 16 bits |
| Socks.RepliesAccepted | internal/core/gateway/socks_client.go:33-129 | a method choice and a successful reply with any bound address are accepted, and what follows is left for the tunnel |
| Socks.OwnRepliesAccepted | internal/tunnel/vless/socks.go:15-77 | so the dialler accepts what the strategies of this program reply |
| Dialler.ReadReply | internal/core/gateway/socks_client.go:83-126 | reads the reply and just its bound address, by address type, whatever the chunking |
| Dialler.DialSocksProxy | internal/core/gateway/socks_client.go:25-129 | succeeds iff the name fits and the answers are a method choice and a reply without error; sends greeting and request, the request only after the choice; stands at the first byte of the tunnel |
| Socks.AddressRoundTrip | internal/tunnel/vless/socks.go:37-69 | decoding undoes encoding up to normalisation and leaves exactly what follows |
| Socks.AddressSound | internal/tunnel/vless/socks.go:37-69 | whatever is decoded was such an encoding |
| Socks.GreetingIff | internal/tunnel/vless/socks.go:15-27 | the greetings taken are exactly the encoded ones, with any number of methods |
| Socks.RequestIff | internal/tunnel/vless/socks.go:32-69 | the exact language of requests |
| Socks.HandshakeIff | internal/tunnel/vless/socks.go:15-77 | the exact language of handshakes: a greeting of version 5, then a request |
| Socks.RepliesIff | internal/core/gateway/socks_client.go:33-126 | the dialler accepts exactly a choice of method 0 and a reply with code 0 and any bound address |
| Socks.NormIff | internal/tunnel/vless/socks.go:61 | normalisation changes exactly the IPv4-mapped addresses, to their last four bytes |
| Socks.WireFormat | internal/tunnel/vless/encoder.go:36-66 | request and header byte by byte: constants, address types, and the port with its high byte first |
| Socks.RequestRoundTrip | internal/tunnel/vless/socks.go:33-69 | the same for a whole request |
| Socks.HandshakeRoundTrip | internal/tunnel/vless/socks.go:15-77 | the same for a greeting with any methods and a request |
| Socks.EncodeRequestHeader | internal/tunnel/vless/encoder.go:30-71 | the VLESS header of the normalised destination, refused exactly for a bad UUID or a name over 255 bytes |
| Socks.HeaderRoundTrip | internal/tunnel/vless/encoder.go:36-66 | an independent decoder gets back user, command, host and port |
| Socks.DestinationPreserved | internal/tunnel/vless/socks.go:32-76 | SOCKS5 request, handshake parser and VLESS header denote the same host and port |
| Socks.EncodingsInjective | internal/tunnel/vless/encoder.go:30-71 | both encodings are injective on normalised destinations |
| Socks.MappedBecomesV4 | internal/tunnel/vless/socks.go:61 | without normalisation they are not: a mapped address reads back as IPv4 |
| Framing.WritePacket | internal/shared/protocol/protocol.go:28-47 | succeeds iff the payload has at most 65532 bytes, and then writes content length, stream ID, flag and payload in this order, numbers with their high byte first |
| Framing.OnWireIff | internal/shared/protocol/protocol.go:50-76 | a packet is read exactly from bytes laid out so |
| Framing.ErrorsOnWire | internal/shared/protocol/protocol.go:51-69 | which error comes when: no length, a length below 3, or content that more bytes could complete |
| Bytes.U16Order | internal/shared/protocol/protocol.go:37-38 | 16-bit fields compare as their bytes do, the first one first |
| Bytes.PutU16Bytes | internal/shared/protocol/protocol.go:37-38 | the two bytes of a number, the high one first |
| Framing.DecodeEncode | internal/shared/protocol/protocol.go:28-76 | decoding undoes encoding and leaves exactly what follows |
| Framing.EncodeDecode | internal/shared/protocol/protocol.go:50-76 | and encoding undoes decoding |
| Framing.CutReadable | internal/shared/conn_adapter.go:27-41 | a stream cut into non-empty messages is readable to its end |
| Framing.ReadableUntil | internal/shared/conn_adapter.go:27-41 | a text or an empty message ends what can be read, whatever follows |
| Framing.Adapter.Read | internal/shared/conn_adapter.go:27-41 | conserves the stream; fails at its end and at a text or empty message; a read of length zero takes nothing |
| Framing.Adapter.ReadPacket | internal/shared/protocol/protocol.go:50-76 | reads what the joined stream says, wherever messages begin and end |
| Framing.ReadAll | internal/shared/protocol/protocol.go:50-76 | any packets, over any cut into messages, are read back as written |
| Framing.RoundTrip | internal/shared/protocol/protocol.go:28-76 | end to end: packets written one by one and carried in messages cut anywhere come back as they were, or writing stops, exactly at a payload over 65532 bytes |
| Framing.WriteSecurePacket | internal/shared/protocol/secure_io.go:11-25 | succeeds iff the payload is empty or fits with the overhead; the packet object stays sealed |
| Framing.ReadSecurePacket | internal/shared/protocol/secure_io.go:28-46 | the opened form of what ReadPacket reads |
| Framing.ReadAllSecure | internal/shared/protocol/secure_io.go:28-46 | any sealed packets, over any cut into messages, are read back as they were before sealing |
| Framing.RoundTripSecure | internal/shared/protocol/secure_io.go:11-46 | end to end for sealed packets: succeeds exactly if every payload is empty or fits with its overhead |
| Framing.Resend | internal/shared/protocol/secure_io.go:11-46 | of one packet object written twice, the reader of the second copy gets the packet iff its payload was empty, and else its sealed form |

## Left out

- Sockets, dialers, TLS, gRPC and WebSocket libraries: streams that deliver bytes or messages in pieces of any size, or an error. Receiving from a gRPC stream fails exactly when nothing more comes; sending may fail at any time, unless the link is reliable.
- The capacity of a received hunk is fixed when it is put on the stream; every capacity is possible.
- Contents of the caller's byte slices: a read returns a byte string instead of filling a slice.
- Setting list slots to nil in the shared backing array of a MultiBuffer, and the int32 width of the cursors.
- The `unmanaged` flag of Buffer, which nothing sets, `Release` of nil, BytesTo, Advance, BufferToBytesWriter, SingleReader and readv: they would only add easy members, or are not on the path of the tunnels.
- Closing a connection while a call is in progress; `done` is a field that stays as it is during a run.
- Buffers.Buffer.Extend: requires room, because the source panics without it.
- Buffers.Buffer.NewExisted: requires a capacity of at least 8192 bytes, because the source panics below it, and an array that is not in the pool.
- Buffers.Buffer.ReadFrom: models another Buffer as the reader, as in Compact; the hunk reader as its reader is `HunkConn.HunkReaderWriter.CopyOut`, and SingleReader is left out.
- fillBuffer peeks one byte per turn and makes no progress on a partly filled buffer; this is the outcome `Spins` or `Stuck` instead of a loop without end, and read deadlines are not modelled.
- Text forms of addresses (ParseIP, SplitHostPort, JoinHostPort): hosts are IPv4, IPv6 or a name, normalised as the text form normalises mapped addresses; names that spell an IP address, and ports that are no numbers, are not modelled.
- The downlink of the relays, failures of the dial to the remote end and of writes to it.
- Rule matching (suffixes, CIDR, DNS lookup) and sticky wildcards: a predicate.
- `sort.Slice` and `sort.Strings` are modelled by insertion; server IDs are numbers with their order instead of strings; a server without listener information counts as one without instance.
- The replacement of the sticky manager and of the balancer while dispatches are under way. A reading of the clock and the access that follows it are one step of a run, and so are the load and the test of a record by a cleanup pass.
- Rotation.SessionManager.NewTCPSession: models one allocation without interruption; `StreamIds` has the interleavings of its two atomic steps. The uint32 wrap of that counter is not modelled.
- AppServer before Stop only; healthCheckLoop, done, saving to disk, and the settings manager are not modelled. Of a profile only the Active flag is modelled, and metrics are one number.
- Delivery by TunnelStream, and the uplinks of the goremote and worker clients.
- The inside of the AEAD: any pair of functions that cancel and add a fixed overhead; failure of encryption is not modelled.
- Web handlers, UI, configuration, logging and generated code.
