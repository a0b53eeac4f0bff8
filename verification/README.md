# A model of the node, with proofs

ppanel-node runs proxy protocols for users whose list it pulls from a panel, meters
their traffic and reports it back. This project models the parts of it whose
correctness does not show in any single function, and proves what they are for:

- the UDP packet layer of the TUIC version 5 protocol: the wire codec, fragmentation,
  the reassembly table, packet IDs, the writer that adapts its packet size and the
  queue in front of the reader (`Codec`, `Fragmentation`, `Defragger`, `Reassembly`,
  `PacketConn`, `Inbox`);
- three concurrent protocols, as transition systems whose steps are the atomic actions
  of the goroutines involved: the periodic task (`TaskLifecycle`), the authentication
  and close of a TUIC session (`AuthSession`), and the creation of UDP relay
  connections (`UdpRelay`), on the small theory of executions in `Executions`;
- traffic accounting: the report queue (`TrafficQueue`), and counters, drains, queue and
  panel together at the granularity of single atomic loads and swaps (`TrafficLedger`);
- the limiter, the comparison of user lists by a string key, and the rounds that keep
  limiter, controller and core in step (`Limiter`, `UserDiff`, `UserSync`);
- reloading: controllers and nodes (`NodeLifecycle`) and the prepare, stop, start,
  commit-or-rollback sequence over them (`Reload`);
- four smaller loops: the TLS record scanner (`RecordScanner`), the sniffing cache
  (`CachedReader`), the retry backoff (`Backoff`) and the scoped DNS environment
  (`DnsEnvironment`).

Where the program changes state in place the model does so too: a class with the
program's fields, whose methods are proved equal to a specification function or
predicate on values, and lemmas about that specification. Where several goroutines
race, the model is a step relation and the results hold for every execution of it.
Every fallible call into the panel, QUIC, the Xray core or the clock is a
nondeterministic outcome or a parameter.

`dafny verify dfyconfig.toml` checks the whole project.

## Where the code does not keep a promise

For each of these the code is modelled as it is, and the model says for which inputs it
falls short.

- Fragment totals are cut to 8 bits. They are true if and only if there are at most 255
  fragments, and a message that needs splitting can be received if and only if it is
  split into at most 255; 257 bytes of room per fragment is the exact bound for payloads
  of up to 65535 bytes (`Fragmentation.CountsAreTrue`, `Reassembly.ReceivableIff`,
  `Fragmentation.WrapBound`).
- A receiver can be handed data that was never written. After one attempt at a message
  it can if and only if there are more than 255 fragments and as many as the cut total,
  but at least one, have gone out. After a second attempt it can also, and in no other
  case, when the first attempt left fragments on the wire, the second one succeeded, and
  both made equally many: they share the packet ID. That takes a datagram limit that
  shrinks during the write, from 1200 to 1100 bytes for 3000 bytes of payload, say
  (`PacketConn.WrongDataAfterOneIff`, `PacketConn.WrongDataAfterTwoIff`,
  `PacketConn.LeftBehind`, `PacketConn.ShrinkingLimitMixes`).
- Messages that find the reader's queue of 64 full are dropped: readers get all that is
  reassembled if and only if it never overflows (`Inbox.AllReadIff`).
- User lists are compared by UUID and speed limit written one after the other, so that
  "a1" with limit 2 and "a" with limit 12 look the same. The comparison is exact if and
  only if the keys are unambiguous, which UUIDs of one length guarantee
  (`UserDiff.ExactIffUnambiguous`, `UserDiff.ReplacementUnnoticed`). Limiter and list
  agree after a round under an exact condition that asks for less
  (`UserSync.SyncedIffHarmless`).
- A round that fails after removing users from the core, followed by a list that has
  them again, leaves them out of the core for as long as the lists keep them
  (`UserSync.CoreAfterRound`, `UserSync.ReinstatedUsersAreMissing`,
  `UserSync.MissingForGood`).
- A limit check that is overtaken by rounds stores a bucket of a stale rate, exactly
  when the user had a limit, has been changed or removed, and no other check has cached
  a bucket in between (`UserSync.LateStore`).
- The comment on `Controller.Stop` promises that `Start` can restore service. A
  controller whose listener could not be removed still counts as started, so `Start`
  leaves it alone although its tasks have ended: after a rollback its tasks run if and
  only if its listener had been removed (`Reload.Program.Reload`).
- A failed restart after a successful replacement is not counted as a failure: the next
  call attempts again if and only if the last attempt replaced the binary or its pause
  is over (`Backoff.NextAttempt`, `Backoff.FailedRestartsAreNotCounted`).
- An error while sniffing stays with the reader, also when only the sniffer's deadline
  caused it: the rest of the stream is delivered if and only if there is no such error
  or nothing was left (`CachedReader.WholeStreamIff`, `CachedReader.TimeoutStarves`,
  `CachedReader.Transparent`).
- A late deletion of a session's map entry, one that hits the entry of an open relay
  connection, and nothing else strands an open connection; until one happens a session
  has at most one (`UdpRelay.OneOpenConnection`, `UdpRelay.StrandedIffLate`). A session
  can then have two (`UdpRelay.LateDeleteSplitsSession`).
- `Task.Start` reports success without effect while a run that was cancelled has not
  been cleared yet, and only then (`TaskLifecycle.StartServesIff`,
  `TaskLifecycle.StartDuringClose`).
- `determineSpeedLimit` is commented as the minimum non-zero rate, which it is if and
  only if no negative limit meets a limit of zero: -3 and 0 give 0, that is no limit
  (`Limiter.LeastNonZero`, `Limiter.NegativeMeetsNone`). For the same reason the check
  that clears an expired temporary limit answers the rate that holds from then on if and
  only if the user's own limit is positive or the node has none
  (`Limiter.TemporaryLimitEnds`).

## Model

| member | source | states |
|---|---|---|
| `Codec.Buffer.WriteDestination` | core/transport/tuic/protocol.go:94-130 | appends exactly the wire form, or nothing when a domain name is longer than 255 bytes |
| `Codec.Pack` | core/transport/tuic/packet.go:41-65 | the packed form of a message, or a short-buffer error exactly when its domain name is too long |
| `Codec.WireLayout` | core/transport/tuic/packet.go:41-69 | where every field of a packed message is, and that its length is header size plus payload |
| `Codec.AddressLayout` | core/transport/tuic/protocol.go:94-130 | the bytes between the address type and the port: a length and a domain name, or an IP address in network order |
| `Codec.TakeFails` | core/transport/tuic/packet.go:407-432 | reading a field fails iff the input is too short; EOF iff it ends before the field |
| `Codec.Reader.ReadDestination` | core/transport/tuic/protocol.go:47-92 | consumes exactly one destination; unknown kinds and short input are errors |
| `Codec.Reader.ReadHeader` | core/transport/tuic/packet.go:408-428 | the fields both decoders share, read in order |
| `Codec.ReadUDPMessage` | core/transport/tuic/packet.go:407-432 | the stream decoder: takes the announced payload and leaves the rest unread |
| `Codec.MappedIff` | core/transport/tuic/protocol.go:79-88 | exactly the addresses ::ffff:a.b.c.d become IPv4 addresses, with these four bytes |
| `Codec.DecodeUDPMessage` | core/transport/tuic/packet.go:434-462 | the datagram decoder: the payload must be all that is left |
| `Codec.DestinationRoundTrip` | core/transport/tuic/protocol.go:47-130 | reading a written destination gives it back, up to the network and the mapped IPv6 form, and stops where it ends |
| `Codec.DestinationReprint` | core/transport/tuic/protocol.go:47-130 | writing what was read gives the input again, except exactly for a mapped IPv6 address |
| `Codec.HeaderRoundTrip` | core/transport/tuic/packet.go:41-69 | the header fields survive packing and reading, with the length modulo 65536 |
| `Codec.StreamRoundTrip` | core/transport/tuic/packet.go:407-432 | the stream decoder inverts packing and leaves exactly the trailing bytes; the payload is whole iff shorter than 65536 |
| `Codec.DatagramRoundTrip` | core/transport/tuic/packet.go:434-462 | the datagram decoder inverts packing on payloads below 65536 bytes, all that the connection writes, and refuses longer ones |
| `Codec.DecodersAgree` | core/transport/tuic/packet.go:407-462 | on every input, the datagram decoder succeeds iff the stream decoder does with nothing left, with the same message |
| `Codec.StreamReprint` | core/transport/tuic/packet.go:407-432 | packing what was read from a stream gives the bytes again, except exactly for a mapped IPv6 address |
| `Fragmentation.FragUDPMessage` | core/transport/tuic/packet.go:71-97 | the loops compute the specified fragments; what those are is in the rows that follow |
| `Fragmentation.FragmentFields` | core/transport/tuic/packet.go:78-96 | field by field: session and packet ID of the message, total and index modulo 256, destination on the first only; a message that fits is sent as it is |
| `Fragmentation.ChunksJoin` | core/transport/tuic/packet.go:78-88 | cutting into chunks loses nothing |
| `Fragmentation.FragmentsJoin` | core/transport/tuic/packet.go:71-97 | the payloads of the fragments concatenate to the original |
| `Fragmentation.ChunkSizes` | core/transport/tuic/packet.go:78-88 | there are length over room, rounded up, chunks; all but the last are full and none is empty |
| `Fragmentation.FragmentCount` | core/transport/tuic/packet.go:71-97 | the number of fragments is the payload length over the room, rounded up, and at least two |
| `Fragmentation.FragmentsFit` | core/transport/tuic/packet.go:71-97 | every packed fragment fits the packet size iff the header leaves room or the whole message fits |
| `Fragmentation.FirstIsLargest` | core/transport/tuic/packet.go:89-95 | no fragment is larger on the wire than the first one, which fills the packet |
| `Fragmentation.CountsAreTrue` | core/transport/tuic/packet.go:89-92 | the one-byte totals and indices are the true ones iff there are at most 255 fragments |
| `Fragmentation.WrapBound` | core/transport/tuic/packet.go:89-92 | payloads up to 65535 bytes need at most 255 fragments iff a fragment has room for 257 bytes; with 256 the total wraps to zero |
| `Fragmentation.LargerPacketsAreFewer` | core/transport/tuic/packet.go:71-88 | a larger packet size never gives more fragments |
| `Fragmentation.DefaultCount` | core/transport/tuic/packet.go:131 | at the default packet size at most 71 fragments, reached with a 255-byte domain name |
| `Defragger.PacketItem.Fill` | core/transport/tuic/packet.go:386-390 | fills an empty slot and bumps the one-byte counter, which never wraps; full exactly when every slot is filled |
| `Defragger.PacketItem.Assemble` | core/transport/tuic/packet.go:392-404 | the first fragment with all payloads in order, or nothing when they are all empty |
| `Defragger.UdpDefragger.Feed` | core/transport/tuic/packet.go:364-405 | refines a map from packet ID to a partial function of fragments, in state and in output |
| `Defragger.FeedWellFormed` | core/transport/tuic/packet.go:364-405 | every stored entry has at least two slots, some but not all filled, slot i by a fragment numbered i of that total and packet ID |
| `Defragger.FirstFragment` | core/transport/tuic/packet.go:373-382 | a fragment with another total starts the packet ID over and yields nothing |
| `Reassembly.RunWellFormed` | core/transport/tuic/packet.go:364-405 | after any sequence of feeds the table is well formed |
| `Reassembly.FragmentsAreSplit` | core/transport/tuic/packet.go:71-97 | up to 255 fragments are numbered pieces that join to the message; the results on one message below hold for pieces of any sizes |
| `Reassembly.CompleteDelivers` | core/transport/tuic/packet.go:391-404 | a complete set of fragments delivers the original payload |
| `Reassembly.StepSound` | core/transport/tuic/packet.go:364-405 | one feed keeps the entry of a message sound and leaves the entries of other packet IDs alone |
| `Reassembly.NeverCorrupts` | core/transport/tuic/packet.go:364-405 | in any order and with any repetition a fragment of a message yields nothing or the whole message |
| `Reassembly.Gathering` | core/transport/tuic/packet.go:373-390 | while a fragment is missing the entry holds exactly the fragments seen and nothing comes out |
| `Reassembly.ReassembledOnce` | core/transport/tuic/packet.go:364-405 | nothing comes out until the last missing fragment, then exactly the message, and the entry is gone |
| `Reassembly.TooManyNeverWhole` | core/transport/tuic/packet.go:89-92 | with more than 255 fragments no order and no repetition makes a fragment yield all of the data |
| `Reassembly.ReceivableIff` | core/transport/tuic/packet.go:364-405 | a split message can be received iff there are at most 255 fragments |
| `Reassembly.WrappingYieldsWrong` | core/transport/tuic/packet.go:89-92 | if the total of more than 255 fragments wraps within those that are sent, these alone yield wrong data |
| `Reassembly.MixingYieldsWrong` | core/transport/tuic/packet.go:373-390 | so do the first fragment of one split and all of a finer one into equally many |
| `Reassembly.HarmlessYieldRight` | core/transport/tuic/packet.go:364-405 | pieces of one split, and pieces with other totals that are never the last ones, yield nothing else than the data, in any order |
| `Reassembly.WrongDataIff` | core/transport/tuic/packet.go:364-405 | some arrival of k fragments of one split and n of a finer one yields wrong data iff a total wraps within them, or k > 0, n is all, and both have equally many |
| `PacketConn.AfterIsModular` | core/transport/tuic/packet.go:203 | the 32-bit counter after any number of writes |
| `PacketConn.PacketIDCollisions` | core/transport/tuic/packet.go:203 | two writes fewer than 65535 apart collide iff they are consecutive and the counter wraps between them; 65535 is never used |
| `PacketConn.UdpPacketConn.WritePacket` | core/transport/tuic/packet.go:191-212 | which writes are refused, and that those change nothing; any other takes the next packet ID; what a successful one sends in one attempt is read by the peer as exactly this session, packet ID, destination and data, whole or when the last fragment arrives |
| `PacketConn.UdpPacketConn.WritePacketOrFragments` | core/transport/tuic/packet.go:229-245 | one attempt at the size in force, and after a too-large answer a second one at the size that answer allows, whatever limits the datagrams meet; what the first attempt sent stays sent |
| `PacketConn.UdpPacketConn.FirstAttempt` | core/transport/tuic/packet.go:230-235 | the message or its fragments, sent until one is refused |
| `PacketConn.UdpPacketConn.WriteOne` | core/transport/tuic/packet.go:278-298 | sends one packed message as a datagram or on a stream of its own |
| `PacketConn.UdpPacketConn.WritePackets` | core/transport/tuic/packet.go:269-276 | sends all fragments, or those before the first that is larger than the limit it meets or breaks the connection |
| `PacketConn.LeftBehind` | core/transport/tuic/packet.go:236-244 | pieces of a first attempt stay on the wire only when the message was split and the limit fell under the size of its pieces meanwhile |
| `PacketConn.RetryFits` | core/transport/tuic/packet.go:243-244 | the second attempt is not refused for its size unless the limit falls again or the header leaves no room |
| `PacketConn.WrongDataAfterOneIff` | core/transport/tuic/packet.go:229-244 | the datagrams of one attempt can be read as data that was not written iff the total wraps within them |
| `PacketConn.WrongDataAfterTwoIff` | core/transport/tuic/packet.go:229-244 | those of two attempts iff a total wraps, or the first attempt left some, the second succeeded, and the counts are equal |
| `PacketConn.ShrinkingLimitMixes` | core/transport/tuic/packet.go:229-244 | an instance: a limit that falls from 1200 to 1100 bytes after the first of three pieces |
| `PacketConn.FragmentDecodes` | core/transport/tuic/packet.go:278-285 | every fragment of a message up to 65535 bytes with a canonical destination survives packing and decoding |
| `PacketConn.DeliveredEndToEnd` | core/transport/tuic/packet.go:247-267 | datagrams of one message in any order, repeated, among others: the receiver gets nothing before the last missing one, then exactly the written session, packet ID, destination and data |
| `Inbox.UdpPacketInbox.InputPacket` | core/transport/tuic/packet.go:247-267 | queues a whole or reassembled message when there is room, and drops it otherwise |
| `Inbox.UdpPacketInbox.ReadPacket` | core/transport/tuic/packet.go:163-175 | takes the first message, or none |
| `Inbox.NothingOvertakes` | core/transport/tuic/packet.go:247-267 | first in, first out: later events only add behind what is queued |
| `Inbox.AllReadIff` | core/transport/tuic/packet.go:247-267 | over any arrivals and reads, readers get what the defragger hands over, in order, and all of it iff the queue never overflows |
| `Inbox.TakesDrain` | core/transport/tuic/packet.go:163-175 | reads take the messages that wait, in order, and as many reads as there are messages take them all |
| `Inbox.ReachesReader` | core/transport/tuic/packet.go:247-267 | the message completed by the last missing datagram waits behind the others iff fewer than 64 do |
| `Inbox.SessionsApart` | core/transport/tuic/service.go:356-380 | the defragger of a session is determined by the messages that name the session |
| `Inbox.DeliveredToSession` | core/transport/tuic/service.go:356-380 | end to end with sessions: among datagrams of other sessions, with any packet IDs, the connection of the written session gets nothing before the last missing datagram, then exactly the message |
| `TaskLifecycle.ExecutionKeepsInv` | common/task/task.go:22-93 | only the current run can be alive, and how far each Close got says what has happened to its run |
| `TaskLifecycle.MutualExclusion` | common/task/task.go:22-77 | over every interleaving at most one loop is alive and at most one Execute body exists |
| `TaskLifecycle.CloseWaitsForTheEnd` | common/task/task.go:79-93 | when a Close that captured a run has returned, that run is over, then and ever after |
| `TaskLifecycle.LateCloseIsHarmless` | common/task/task.go:88-92 | the fields of a run are cleared only after it has ended, by a Close that captured that very run |
| `TaskLifecycle.StartsAlone` | common/task/task.go:22-33 | a new run begins only when no earlier loop is alive |
| `TaskLifecycle.StartServesIff` | common/task/task.go:22-33 | after a Start an uncancelled run is alive iff no close of the run before is under way |
| `TaskLifecycle.StartDuringClose` | common/task/task.go:22-33 | an execution in which a Start succeeds and starts nothing |
| `TaskLifecycle.EndedForGood` | common/task/task.go:34-50 | a run that has ended never changes again |
| `TaskLifecycle.CloseCanFinish` | common/task/task.go:79-93 | a waiting Close is at most five enabled steps of its run away from returning |
| `TaskLifecycle.CloseEndsTask` | common/task/task.go:79-93 | from every moment of every execution a Close can end the task in at most nine steps: it returns, no run is alive, and a Start can begin a new one |
| `TaskLifecycle.BodyRuns` | common/task/task.go:37-49 | a first call or a tick creates a body, which can run and hand over its result, after which the loop waits again |
| `TaskLifecycle.LaterRunWaits` | common/task/task.go:41-44 | a run started without its first call waits for its tick |
| `TaskLifecycle.TimeoutAsksForReload` | common/task/task.go:60-67 | a call that runs out of time asks for a reload iff the task can ask, is not being closed and no request waits |
| `AuthSession.ExecutionKeepsInv` | core/transport/tuic/service.go:192-278 | the invariant of locks, once-closed channels, waiting jobs, service log and timer |
| `AuthSession.AuthenticatedOnce` | core/transport/tuic/service.go:212-226 | authUser is written at most once, with an approved user, before authDone closes, and never changes after |
| `AuthSession.ServedAsTheUser` | core/transport/tuic/service.go:301-314 | the handler runs only after authentication and only with the authenticated user |
| `AuthSession.FirstErrorStays` | core/transport/tuic/service.go:402-418 | connErr keeps the first error of any close call |
| `AuthSession.DecisionsAreFinal` | core/transport/tuic/service.go:391-418 | what was decided when a channel closed never changes |
| `AuthSession.HandledOnceOrReleased` | core/transport/tuic/service.go:235-267 | a waiting stream or datagram is handled exactly once, or released with the connection's first error or its context's end, never both |
| `AuthSession.ShortcutLeadsOn` | core/transport/tuic/service.go:269-278 | until a channel is closed some step lowers the distance to that, which is at most four |
| `AuthSession.WaitersAreReleased` | core/transport/tuic/service.go:269-278 | from every moment of every execution a waiting stream or datagram is at most six steps from being served or released |
| `AuthSession.ApprovedGetIn` | core/transport/tuic/service.go:212-226 | once somebody is approved the session is at most three steps from being authenticated, and that does not close the connection |
| `AuthSession.ApprovalCounts` | core/transport/tuic/service.go:208-226 | an approval that finds the lock free authenticates its user |
| `AuthSession.AttemptsEnd` | core/transport/tuic/service.go:212-226 | every attempt is at most seven steps from its end, and then does not hold the lock |
| `AuthSession.CallsAreMade` | core/transport/tuic/service.go:185-222 | which events call closeWithError, with which error: a rejected or repeated authentication, the failure of a uni-stream or datagram, the timeout; nothing else |
| `AuthSession.CallsClose` | core/transport/tuic/service.go:402-418 | every call of closeWithError is at most three steps from the end of the connection |
| `AuthSession.AnyTime` | core/transport/tuic/service.go:391-400 | streams, datagrams and attempts can come at any time; the end of the context releases all that waits |
| `AuthSession.TimeoutQuits` | core/transport/tuic/service.go:269-278 | the timeout quits iff a channel is closed, and fires at most once |
| `UdpRelay.ExecutionKeepsInv` | core/transport/tuic/service.go:356-389 | the invariant of session map, starters, offered messages and launches |
| `UdpRelay.LaunchedOnce` | core/transport/tuic/service.go:378-388 | the handler of a connection is launched at most once, by a message with a valid destination that was offered to it first |
| `UdpRelay.LaunchedIffValid` | core/transport/tuic/service.go:378-388 | a valid message that has passed markStarted has its connection started; when all handlers of a connection have ended it has been launched iff one of their messages was valid |
| `UdpRelay.EveryMessageIsOffered` | core/transport/tuic/service.go:356-380 | every message that arrives is at most six steps from being put to a connection of its session |
| `UdpRelay.OfferedToOne` | core/transport/tuic/service.go:356-380 | a message is offered to exactly one connection, of its own session |
| `UdpRelay.OneOpenConnection` | core/transport/tuic/service.go:356-377 | until a late deletion a session has at most one open connection that messages have chosen, and it is the map entry |
| `UdpRelay.OneConnPerSession` | core/transport/tuic/service.go:356-377 | so until a dissociate, close or end of context all its messages go to one open connection |
| `UdpRelay.StrandedIffLate` | core/transport/tuic/service.go:253-263 | a step leaves a chosen open connection outside the map for the first time iff it is a late deletion |
| `UdpRelay.DissociationCloses` | core/transport/tuic/service.go:244-264 | a dissociation that nothing interferes with closes its session's connection, removes its entry and touches nothing else |
| `UdpRelay.CloseCloses` | core/transport/tuic/packet.go:300-324 | so does a close |
| `UdpRelay.ClosedForGood` | core/transport/tuic/packet.go:309-324 | a closed connection never reopens |
| `UdpRelay.ContextEnds` | core/transport/tuic/service.go:356-362 | the end of the context closes every connection |
| `UdpRelay.LateDeleteSplitsSession` | core/transport/tuic/service.go:362-366 | an execution in which a late delete leaves a session with two open connections |
| `TrafficQueue.TrafficBatch.Accumulate` | node/traffic.go:45-52 | the latest client, and the users' deltas added up under their own UID |
| `TrafficQueue.TrafficBatch.List` | node/traffic.go:63-66 | every user of the batch exactly once, with the batch's amounts |
| `TrafficQueue.TrafficQueue.Add` | node/traffic.go:33-53 | only the destination's batch changes, by the merged traffic; an empty slice changes nothing |
| `TrafficQueue.TrafficQueue.Report` | node/traffic.go:55-74 | exactly the acknowledged batches are removed, whole; all others stay as they were, also when only the reply was lost; no batch is sent twice in a round |
| `TrafficQueue.TrafficQueue.Push` | node/traffic.go:63-71 | one batch: it goes exactly when acknowledged, and what arrived is its whole content |
| `TrafficQueue.SameKeyIff` | node/traffic.go:33-44 | clients share a batch iff host, secret, protocol and node ID agree |
| `TrafficQueue.MergeAdds` | node/traffic.go:46-52 | merging adds exactly the sum of each user's deltas and keeps users filed under their UID |
| `TrafficQueue.ListsSum` | node/traffic.go:63-66 | a report carries exactly the amounts of the batch for every user |
| `TrafficQueue.RoundContinues` | node/traffic.go:59-72 | one visit of the loop keeps: exactly the acknowledged batches are gone, all others unchanged, each sent at most once |
| `TrafficLedger.StepBalances` | core/user.go:75-107 | every atomic step keeps the books of every account balanced |
| `TrafficLedger.TrafficIsConserved` | core/user.go:75-107 | over every execution: added = in counters + in a drain + pending + acknowledged + dropped, for every user and direction |
| `TrafficLedger.CarriedIsBatch` | node/traffic.go:63-67 | a request carries exactly the amounts of its batch for every user |
| `TrafficLedger.DeliveredAtLeastOnce` | node/traffic.go:55-74 | the panel received at least what it acknowledged, exactly that iff the requests with a lost reply carried nothing for the user, and at least what was added and is neither dropped nor still on the node |
| `TrafficLedger.DiscardedOnlyByRemoval` | core/user.go:45-73 | discarded bytes never shrink, and grow only where an entry is removed, an uncounted user drained, or dead counters added to |
| `TrafficLedger.VisitTakes` | core/user.go:82-104 | a visit that nothing interferes with takes both counters to the slice, to the byte, and leaves zeros, iff they exceed the threshold and the user is counted; an uncounted entry above it is forgotten; otherwise nothing changes |
| `TrafficLedger.SwapsOnlyAboveMin` | core/user.go:84-88 | over every execution a drain swaps an entry out only if what it loaded exceeds the threshold |
| `TrafficLedger.DrainBegins` | core/user.go:75-79 | a drain can start at any time on an open core, beside others, with nothing |
| `TrafficLedger.AsStarted` | core/user.go:75-77 | a drain keeps the node and threshold it was started with |
| `TrafficLedger.DrainGoesOn` | core/user.go:75-107 | a drain is never stuck and can visit every entry of its node |
| `TrafficLedger.LinkAdds` | core/app/dispatcher/countreader.go:17-31 | what a link adds is in its user's counters, to the byte |
| `TrafficLedger.LinkGetsPair` | common/counter/traffic.go:21-28 | a link gets the pair of its user, or a new one of zeros |
| `TrafficLedger.SliceIsQueued` | node/traffic.go:33-53 | the whole slice of a finished drain goes to the queue |
| `TrafficLedger.PushOutcomes` | node/traffic.go:55-74 | what each outcome of a request does to what waits, what is acknowledged and what the panel has, for every user |
| `TrafficLedger.CountedFromAddToDel` | core/user.go:45-114 | users with a panel ID are counted from being added to being removed, and then have no counters |
| `TrafficLedger.ClosedCore` | core/xray.go:86-106 | closing a core takes its counters away and keeps links and drains from it |
| `Limiter.UserTagInjective` | limiter/limiter.go:66 | tags of one node differ iff the UUIDs do |
| `Limiter.LeastNonZero` | limiter/dynamic.go:4-22 | in either order the least of the non-zero limits, iff no negative limit meets zero; then the answer is no limit |
| `Limiter.NegativeMeetsNone` | limiter/dynamic.go:4-22 | the instance -3 and 0 |
| `Limiter.PermanentRate` | limiter/limiter.go:174 | without node and temporary limit a user's rate is 125000 bytes per second for each unit of limit |
| `Limiter.StoreLimitsAt` | limiter/limiter.go:99-113 | storing users adds exactly their entries and leaves all others |
| `Limiter.StoredAs` | limiter/limiter.go:99-113 | a stored user has the ID, speed and device limit of the list and no temporary limit |
| `Limiter.StoreUidsAt` | limiter/limiter.go:111-112 | every stored UUID leads to its ID |
| `Limiter.RemovedMeans` | limiter/limiter.go:92-98 | nothing of the deleted users is left, nothing of others is touched |
| `Limiter.Limiter.constructor` | limiter/limiter.go:45-73 | a new limiter knows exactly the given users and has no buckets |
| `Limiter.Limiter.UpdateUser` | limiter/limiter.go:91-114 | removes everything about the deleted users, then stores the added ones |
| `Limiter.Limiter.CheckLimit` | limiter/limiter.go:116-186 | unknown users are rejected; a rejected check leaves no trace; an admitted one records the address and answers the cached or a new bucket |
| `Limiter.RejectedIff` | limiter/limiter.go:143-172 | an address is rejected iff the user has a device limit, that many devices are alive, and the address is neither online nor one of the previous round |
| `Limiter.AdmittedRecords` | limiter/limiter.go:143-167 | what an admitted address leaves in the tables of this and the previous round |
| `Limiter.TemporaryLimitEnds` | limiter/limiter.go:126-141 | an expired temporary limit is cleared or its user forgotten; the clearing check answers the new rate iff the own limit is positive or there is no node limit |
| `Limiter.TrimmedIff` | limiter/limiter.go:117-118 | exactly mapped IPv4 addresses are shortened |
| `Limiter.TrackedIff` | limiter/limiter.go:143 | where devices are counted |
| `Limiter.Limiter.RecordAddress` | limiter/limiter.go:143-172 | rejects exactly when the address needs a device slot and none is free, and then undoes its store |
| `Limiter.Limiter.TakeBucket` | limiter/limiter.go:174-185 | the cached bucket, or a new one that is cached; none without a limit |
| `Limiter.Limiter.GetOnlineDevice` | limiter/limiter.go:188-205 | reports exactly the online addresses, starts an empty round and remembers the reported addresses |
| `Limiter.ReportedIff` | limiter/limiter.go:188-205 | a user and address are reported iff the address is online for that user |
| `Limiter.CheckKeepsCoherence` | limiter/limiter.go:116-186 | a check keeps the user table and cache coherent and answers the user's current rate |
| `UserDiff.ValueOfDigits` | node/task.go:177 | the decimal form of a number determines it |
| `UserDiff.ItoaInjective` | node/task.go:177 | so does the form with a sign |
| `UserDiff.KeyOfEqualLength` | node/task.go:177 | for UUIDs of one length the key stands for UUID and speed limit |
| `UserDiff.CompareUserList` | node/task.go:174-195 | the map and its two loops compute the specified lists, deletions in any order |
| `UserDiff.TakeMatched` | node/task.go:181-188 | the second loop: first matches leave the map, all other new users are added |
| `UserDiff.Collect` | node/task.go:190-192 | the rest of the map, whatever the order, each key once |
| `UserDiff.UnambiguousIsExact` | node/task.go:174-195 | with unambiguous keys the answer is exactly the difference in UUID and speed limit |
| `UserDiff.ExactIsUnambiguous` | node/task.go:174-195 | an exact answer means the keys were unambiguous |
| `UserDiff.ExactIffUnambiguous` | node/task.go:174-195 | for lists with distinct UUIDs the answer is exact iff the keys are unambiguous |
| `UserDiff.EqualLengthsAreUnambiguous` | node/task.go:174-195 | distinct UUIDs of one length never make keys ambiguous |
| `UserDiff.ReplacementUnnoticed` | node/task.go:177-183 | two lists that differ in their only user and compare as equal |
| `UserSync.Server.DelUsers` | core/user.go:45-73 | removes the users before the first failure from the table, all of them without one |
| `UserSync.Server.AddUsers` | core/user.go:109-114 | the table takes all users even when adding them fails |
| `UserSync.StoreTagsAt` | core/user.go:109-114 | each stored user's tag leads to the ID in the list, every other tag to what it led to |
| `UserSync.Controller.UserListMonitor` | node/task.go:60-120 | every exit of a round, with the state it leaves in list, limiter and core |
| `UserSync.RoundKeepsAgreement` | node/task.go:60-120 | completed or failed anywhere, a round keeps limiter and list in agreement and the cache coherent |
| `UserSync.UpdateKeepsSync` | limiter/limiter.go:91-114 | updating by an exact difference gives the limiter exactly the new list |
| `UserSync.UpdateKeepsCache` | limiter/limiter.go:91-114 | and leaves no bucket of a removed or changed user |
| `UserSync.CoreAfterRound` | node/task.go:83-103 | a completed round makes the core serve the new list iff it served the kept users and no strangers before |
| `UserSync.IdsAfterRound` | node/task.go:83-103 | a completed round gives added users the ID of the new list and leaves kept ones theirs |
| `UserSync.FailedRound` | node/task.go:85-103 | a failed round keeps list and limiter and every kept user; removals before the failure are done, all others are not |
| `UserSync.NoListNoChange` | node/task.go:60-81 | a round without a list changes at most the alive table |
| `UserSync.RetryRepairs` | node/task.go:83-103 | a failed round is repaired by a completed one with the same list |
| `UserSync.ReinstatedUsersAreMissing` | node/task.go:86-102 | users removed before a failure and listed again stay out of the core although list and limiter have them |
| `UserSync.MissingForGood` | node/task.go:83-103 | over every run, a listed user who is missing from the core stays missing while the lists keep the user, whatever the outcomes |
| `UserSync.LostUser` | node/task.go:86-102 | an instance: the only user is replaced, adding fails, and the former list comes back |
| `UserSync.LateStore` | limiter/limiter.go:174-182 | in every run a bucket stored in a later state than its limit was looked up keeps the cache coherent iff there is no limit, one is cached by then, or the list still has the user with that limit |
| `UserSync.OvertakenCheck` | limiter/limiter.go:174-182 | an instance where it does not: the limit goes from 10 to 20 right before |
| `UserSync.SyncedIffHarmless` | node/task.go:82-112 | after a completed round limiter and list agree iff old users that stay are in the new list and new users taken for old ones are old ones |
| `UserSync.UnnoticedReplacementBreaksSync` | node/task.go:82-112 | an ambiguous round after which limiter and list disagree |
| `UserSync.AlwaysInAgreement` | node/task.go:60-120 | in every run of rounds, checks and reports with UUIDs of one length, limiter, list and cache agree |
| `UserSync.NeverAStaleRate` | limiter/limiter.go:116-186 | in such a run a check admits only listed users, at 125000 times their present limit |
| `NodeLifecycle.Controller.Prepare` | node/controller.go:46-83 | asks nothing when prepared; otherwise prepared exactly when every step of the plan worked out |
| `NodeLifecycle.Controller.Fetch` | node/controller.go:53-81 | goes through the steps for its kind of certificate in order until one fails; a complete run makes two requests |
| `NodeLifecycle.Controller.Start` | node/controller.go:85-110 | leaves a started controller alone; succeeds iff preparing, the listener and its users do; then it has listener, tasks and limiter; no request when prepared |
| `NodeLifecycle.Controller.Stop` | node/controller.go:114-135 | tasks end always, the listener exactly on success; configuration and limiter are kept |
| `NodeLifecycle.Controller.Close` | node/controller.go:137-146 | also takes the limiter out of the registry |
| `NodeLifecycle.Node.Prepare` | node/node.go:72-81 | succeeds iff every step does; then all switched-on controllers are prepared; nothing is asked if they were |
| `NodeLifecycle.Node.InheritTraffic` | node/node.go:84-92 | node and controllers share the old node's queue |
| `NodeLifecycle.Node.Start` | node/node.go:94-120 | succeeds iff every step does; then every switched-on controller is up, those that were down with their tasks; no request when prepared |
| `NodeLifecycle.Node.Stop` | node/node.go:142-155 | every controller is asked to stop; success means none is up; what was collected went into the node's queue |
| `NodeLifecycle.Node.Close` | node/node.go:157-171 | all controllers stopped as far as possible and forgotten |
| `NodeLifecycle.GrowsTwice` | node/node.go:142-155 | effects limited to some controllers compose |
| `Reload.Restore` | cmd/server.go:188-197 | closes the new node and core before the old node starts, and asks nothing of the panel |
| `Reload.StopOld` | cmd/server.go:200-204 | stops the old node; success means none of its listeners is up |
| `Reload.StartNew` | cmd/server.go:205-207 | starts the new node while no old listener is up |
| `Reload.Replace` | cmd/server.go:185-207 | the new node serves, or the old one is brought back |
| `Reload.Retire` | cmd/server.go:209-216 | the old node and core are closed after the switch |
| `Reload.NewNode` | node/node.go:39-69 | one controller for each protocol, in order, unless a client cannot be made |
| `Reload.Program.Build` | cmd/server.go:144-183 | fails iff one of its steps does; then listeners, controllers and queue are untouched and a core that was started is closed |
| `Reload.SwitchOver` | cmd/server.go:185-216 | with an old node: share the queue, stop, start, and retire or bring back |
| `Reload.Program.Reload` | cmd/server.go:144-233 | a transaction: an error keeps node and core, success replaces both; no listener goes up while one of the other node is; rollback asks nothing of the panel and restores tasks iff the listener had been removed; one queue throughout |
| `Reload.CutOverStarts` | cmd/server.go:185-207 | starting the new node with no old listener up, or the old one with the new core closed, is safe |
| `Reload.CutOverStops` | cmd/server.go:185-216 | stopping controllers of either node is safe and collects into the shared queue |
| `RecordScanner.RecordLenConn.Scan` | core/inbound/realitydest.go:90-108 | the loop over pieces equals the byte-by-byte scanner, and terminates |
| `RecordScanner.StepsAppend` | core/inbound/realitydest.go:82-88 | scanning piece by piece is scanning the concatenation |
| `RecordScanner.StepsFromStart` | core/inbound/realitydest.go:90-108 | the lengths found are those of the one-shot parse of the stream |
| `RecordScanner.RecordsOfSerialized` | core/inbound/realitydest.go:98-106 | for records laid out as in section 5.1 of RFC 8446 these are their fragment lengths |
| `RecordScanner.MoreInputAppends` | core/inbound/realitydest.go:82-108 | more input only appends lengths |
| `RecordScanner.FirstOversizedRecord` | core/inbound/realitydest.go:28-36 | the full length of the first record over the budget, or zero |
| `RecordScanner.OversizedMeans` | core/inbound/realitydest.go:28-36 | zero iff every record fits, and no later record revises the answer |
| `RecordScanner.ScanReads` | core/inbound/realitydest.go:82-88 | reads of any size give the records of the whole stream |
| `RecordScanner.CheckRealityDest` | core/inbound/realitydest.go:39-71 | the verdict depends on the stream alone; a handshake error condemns only when no record was seen |
| `RecordScanner.JudgedMeans` | core/inbound/realitydest.go:28-71 | condemned by the handshake iff it failed and no record was seen; usable iff otherwise every record fits 17 KiB; else the first that does not |
| `CachedReader.CounterReader.ReadMultiBuffer` | core/app/dispatcher/countreader.go:17-31 | passes bytes and error on and counts the bytes |
| `CachedReader.CachedReader.Cache` | core/app/dispatcher/default.go:43-58 | appends what was read, keeps an error, and shows the sniffer the longest prefix its buffer holds |
| `CachedReader.CachedReader.ReadMultiBuffer` | core/app/dispatcher/default.go:60-89 | the cache first, together with any kept error; then the error alone; then the source |
| `CachedReader.NothingIsLost` | core/app/dispatcher/default.go:43-89 | after any calls, delivered plus cached bytes are what was pulled, in order, and the counter counts them |
| `CachedReader.CounterCountsPulled` | core/app/dispatcher/countreader.go:17-31 | with interrupts the counter still counts all pulled bytes |
| `CachedReader.ErrorsComeOnce` | core/app/dispatcher/default.go:43-80 | an error is reported only once the cache is empty, and it is the source's first or a deadline that passed before it |
| `CachedReader.Transparent` | core/app/dispatcher/default.go:43-89 | up to the first error the reader gets what was pulled; it is what the bare source gives iff no deadline of the sniffer or of the read itself has passed |
| `CachedReader.WholeStreamIff` | core/app/dispatcher/default.go:43-89 | the whole stream is delivered iff no Cache call failed or nothing was left behind the failure |
| `CachedReader.TimeoutStarves` | core/app/dispatcher/default.go:43-89 | after a sniffing read that only timed out, no number of reads delivers anything |
| `Backoff.Attempts.ShouldAttempt` | internal/selfupdate/apply_target.go:30-39 | a new target starts over; the same one waits for its time |
| `Backoff.Attempts.NoteFailure` | internal/selfupdate/apply_target.go:41-53 | counts a failure of the present target and sets the pause, ignores any other |
| `Backoff.Attempts.ApplyTargetVersion` | internal/selfupdate/apply_target.go:60-100 | which calls attempt, wait or fail, and that only failed steps are counted |
| `Backoff.WaitInMinutes` | internal/selfupdate/apply_target.go:47-52 | the pauses add up to 2^n - 1 minutes for up to five failures, then half an hour each |
| `Backoff.AttemptsBackOff` | internal/selfupdate/apply_target.go:28-53 | with one target and every attempt failing, the attempt after n failures starts no sooner than that after the first |
| `Backoff.NextAttempt` | internal/selfupdate/apply_target.go:28-53 | after an attempt the next call attempts iff the binary was replaced or the pause is over, which it is within half an hour |
| `Backoff.FailedRestartsAreNotCounted` | internal/selfupdate/apply_target.go:96-99 | from an attempt on, whatever failed before, attempts that replace the binary follow one another at every call |
| `DnsEnvironment.ApplyDnsEnvironment` | node/lego.go:128-146 | in any order: all variables set and a snapshot, or an error and the environment as before; an error iff some entry is invalid |
| `DnsEnvironment.Restore` | node/lego.go:148-156 | exactly the names of the snapshot are as they were, in any order |
| `DnsEnvironment.RevertedIsBefore` | node/lego.go:133-156 | going back undoes any changes to the names of a snapshot |
| `DnsEnvironment.WithProvider` | node/lego.go:84-105 | building a provider leaves the environment as it was, whether or not it succeeds |
| `DnsEnvironment.ValidIff` | node/lego.go:133-137 | which names and values the operating system takes |

## Left out

- QUIC, TLS, sockets, HTTP, protobuf, JSON and the Xray handlers: they are outcomes, parameters or byte sources. Logging, metrics and the operating system's signals are not modelled.
- Time: clocks are parameters (`Backoff`, `Limiter`) or events that may happen at any time (timers in `TaskLifecycle` and `AuthSession`).
- Address parsing of the network library is not part of this model: a destination is a datatype, and every invalid one is the same value. A domain name is its bytes, so a name that the library would read as an IP address is not normalised.
- Certificates, ACME, the file system, downloading and replacing the binary, version comparison, the command line, configuration builders and validators, routing and sniffers: field copying, one-branch checks, or thin wrappers over code that is not part of this model.
- PacketConn.Transport.SendDatagram: errors other than too-large are one outcome.
- PacketConn.DeliveredEndToEnd: ends at the defragger's output; the queue behind it is in Inbox.ReachesReader. A read that gives up because the connection ends or its deadline passes takes no message.
- PacketConn.UdpPacketConn.WritePacket: one writer at a time; the counter's atomicity between concurrent writers is in the collision lemma only.
- Defragger.UdpDefragger.Feed: one call at a time, as its mutex enforces.
- UdpRelay.OfferedToOne: an offered message need not be read; the queue of its connection is in `Inbox`.
- TrafficLedger.TrafficIsConserved: counters are unbounded integers, so that 64-bit wrap-around is not modelled; the two loads of a drain, the two swaps, and the visit of each entry are separate steps, and a drain may visit entries in any order and any number of times. The panel's ID of a user tag is fixed, since a tag gets a new ID only after its removal.
- TrafficLedger.DiscardedOnlyByRemoval: a core is closed only when none of its drains holds the lock of the user map. `XrayCore.Close` takes no such lock; its callers end the tasks that drain before. Without that a drain could still swap out the counters of a closed core, and the discarded bytes would shrink.
- TrafficQueue.ReportUserTraffic: the panel's answer is nondeterministic; what it does with a report is not part of this model.
- Limiter.Limiter.CheckLimit: atomic here. Its lookup and its store with a round between them are treated in UserSync.LateStore; two concurrent checks of one user are not. Speed limits are unbounded integers.
- Limiter.Limiter.GetOnlineDevice: atomic, and the filter on reported traffic in `reportOnlineAndStatus` is left out. The device limit counts what the panel last reported, not what is online.
- UserSync.Controller.UserListMonitor: does not model the traffic collected before users are removed, which belongs to TrafficLedger. Device limits and user IDs that change without the speed limit go unnoticed by the comparison, so nothing is claimed about them.
- UserSync.ReinstatedUsersAreMissing: about the core's table of user IDs; what the Xray user managers hold, and whether they refuse to remove an unknown user, is not part of this model.
- Reload.Program.Reload: closing a core is one event that always happens and takes its listeners along, though it may report an error; a missing old node is one without controllers; the swap of the log handle is left out. Two protocols with the same tag on one node are not told apart from two with different tags.
- NodeLifecycle.Controller.Prepare: the certificate and the two panel requests are steps that may fail; renewing a certificate counts as no request to the panel.
- RecordScanner.CheckRealityDest: the TLS handshake decides what is read; the reads are a parameter.
- CachedReader.NothingIsLost: sniffing and reading do not overlap, as in the dispatcher, so that the lock is not modelled; buffers are byte sequences. `Interrupt` reaches a pipe only when the cached reader wraps one directly, which is left out.
- Backoff.AttemptsBackOff: calls follow one another; two overlapping calls are not modelled.
- DnsEnvironment.ApplyDnsEnvironment: starts from the parsed variables, so that splitting and trimming lines is left out. Environment calls fail only on names or values the operating system does not allow.
