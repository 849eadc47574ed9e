# Pequin infrastructure: a Dafny model

This project models the infrastructure that the Pequin stores run on, and proves what that
infrastructure promises over all inputs, all runs and all interleavings:

- **Batched signatures**: one Merkle tree of arity m over a batch, one signature of its root, and
  for every message a signature that carries the sibling digests of its path. The hash and the
  root signature scheme are parameters, so nothing is assumed about them.
- **TCP and UDP transports**: frames and datagrams over bytes with little-endian fields, the
  incremental stream parser, fragmentation and reassembly per sender, and the one-slot buffer that
  simulates reordering.
- **Replicated lock server**: the upcalls of one replica, the rebuilding of the lock table from a
  record, the merge at a view change, the client's decision, and quorums.
- **lookup3 hash**: the word, halfword and byte reading loops of `hashlittle`.
- **Simulated transport and timeouts**: virtual time, the timer queue, message delivery, and
  timeouts that re-arm themselves.
- **Thread pool**: dispatching threads, workers and the event loop as interleaved steps, with
  recycled event objects.
- **Latency profiles, replica placement, memory sizes**: merging of histograms, the arithmetic of
  the experiment scripts, printing and reading of sizes.

Code that updates things in place is written as classes, arrays and loops, and proved against
functions on values; the theorems are about those functions. Asserts and panics of the source are
results (`None`, `Bad`, `Panic`, `BadPointer`), and a theorem says when they cannot happen.

Where the code falls short of its promise, the model keeps the code and states the exact condition,
with an input that shows it:

- `BindsIffNotLoose`: the verifier of batched signatures takes the index from the signature and does
  not compare it with the batch size. Whatever it accepts under the batch's own size was signed, up
  to a named collision, if and only if the index is not loose: the walk starts at a leaf or beyond
  all groups, or cut off in the last group with a leaf behind it. At every other index it accepts
  the digests of an internal node, or in a tree of one level any message at all (`LooseAccepts`).
  `StraightToRoot` has the same effect under any batch size that a signature names.
- `BindsUnderIff`: nor does it know the batch size, which the signature names too. Under any size, a
  walk that starts inside the batch's tree proves, up to a named collision, what is hashed into the
  node it starts at, so it binds if and only if that is a leaf or the sizes of the groups above differ
  from the batch's own. From beyond the last leaf a message of the batch may be read as digests
  (`BeyondLeaves`), and then what they stand for is accepted (`MessageAsDigests`).
- `SmallerArityFits` and `LargerArityOverflows`: the cache of tree heights ignores the arity. The
  buffer for signatures is large enough if the entry was made for an arity that is no larger, and
  otherwise `GenerateBatchedSignatures` overflows exactly when some path is longer than the buffer.
- `SyncIsRightIffAscending`: `std::set_difference` over hash sets finds who locked and did not
  unlock, for all records, if and only if hash sets are always listed in ascending order. Otherwise
  it finds them all and may find others that unlocked (`SyncLeavesNobodyOut`, `ReleasedIsFound`).
- `SyncPanicsUnlessOneLeft` and `SyncEqualsReplay`: on the record of a history the assertion in Sync
  holds if and only if at most one client is left at each key, and the rebuilt table is the real one
  if and only if no holder has ever unlocked the key it holds and nobody else has an ignored lock
  there. A lock sent as an inconsistent operation is ignored but recorded, and stops Sync
  (`IgnoredLockPanics`); a client that locks, unlocks and locks again loses its lock
  (`RelockIsLost`).
- `FastGrantSurvives`: after a view change a lock granted by a fast quorum is held if and only if Sync
  left it to its client, or left it to nobody and the lowest operation in d that succeeded on the key
  is that client's. Where a lower client's released lock is still in d, the key goes back to that
  client (`ReleasedLockComesBack`).
- `GrantKeepsItsStatus`: the granted operation itself is still answered with success if and only if
  Sync left the key to nobody and no lower operation succeeded on it. It is turned down when Sync
  restored an earlier lock of its own client (`RestoredGrantIsRejected`), and when an earlier one is
  in d (`LowerGrantRejects`).
- `SettledAgreesIffUpToThree` and `NeverReleasedSurvivesIff`: with the constant 2 in `Decide`, another
  client's lock can be settled beside a fast grant without any release, and take its place, if and
  only if f is at least 4 (`SplitFromFour`, `SplitDoesNotSurvive`).
- `ExclusionIffAtMostThree`: the constant 2 in `Decide` keeps two clients apart if and only if
  there are at most three replicas; `lockserver-repl.cc` configures five.
- `CancelAllBreaksActiveTimeouts`: cancelling all timers leaves timeouts that claim to be active
  with nothing to fire, if and only if one was active (`CancelAllStrandsTimeout`). Nor does any timer that
  is set afterwards ever run (`CancelAllStopsTimers`).
- `SameIdSameWorker`: jobs under one id run on one worker if and only if the id has the same
  remainder by the worker counts at the two dispatches. When workers are added in between and the
  remainder changes, the later job can run first (`OrderLostWhenWorkersAdded`).
- `Profile.Sum`: a merge follows a null pointer if and only if a distribution whose 32-bit buckets
  have all wrapped around to zero has a type that the destination does not have, as after 2^32
  samples of one value (`WrappedBuckets`).
- `StartedAsConfigured`: replicas are started where the configuration says if and only if the
  servers are a multiple of n or there are no more groups than servers per replica (`WrongIndex`).

Modules follow the source files. `Arithmetic` and `Bytes` hold division, little- and big-endian
fields and wrapping additions. `MerkleTree` has the index arithmetic of the heap layout,
`TreeHeight` the heights and sizes, `BatchedSigs` the signer, `SigVerifier` the verifier, and
`SigBinding` and `SigSizes` what it proves under the batch's own size and under any other.
`SigVerdict` says which of its answers it gives.
`UdpFraming`, `UdpReassembly` and `UdpReceiver` go from one datagram to interleaved senders.
`LockServer`, `LockReplay`, `LockClient` and `LockViewChange` go from one replica to the group.
`SimTransport` has the scheduler and `SimRuns` what becomes of messages and timers in whole runs.
`ThreadPool` has the steps and the invariant, `ThreadPoolSteps` what each step keeps, and
`ThreadPoolRuns` the theorems. `Latency` has the values and `LatencyProfile` the object.

## Model

| member | source | states |
|---|---|---|
| `MerkleTree.NodeCountIsExact` | src/lib/batched_sigs.cc:119-139 | the allocated number of nodes is ceil((n-1)/(m-1)) + n, exactly one past the last leaf |
| `MerkleTree.SourceIndices` | src/lib/batched_sigs.cc:142-152 | (j-1)/m is the parent of j and lies before it, and j is one of the m slots that start at the computed leftmost sibling |
| `MerkleTree.FirstLeafBounds` | src/lib/batched_sigs.cc:138 | the first leaf index is the ceiling of (n-1)/(m-1) |
| `MerkleTree.InternalNodeHasTwoChildren` | src/lib/batched_sigs.cc:141-155 | every node before the first leaf has at least two children, all of them nodes of the tree |
| `MerkleTree.ParentIsInternal` | src/lib/batched_sigs.cc:182-189 | the parent of any node is no leaf, and the node lies in the parent's clipped child range |
| `MerkleTree.ChildrenOfParent` | src/lib/batched_sigs.cc:185-189 | the clipped sibling range of j is exactly the set of nodes with the same parent |
| `MerkleTree.SiblingRange` | src/lib/batched_sigs.cc:185-189 | the computed leftmost and rightmost sibling are the first and last child of the parent |
| `MerkleTree.DigestsAt` | src/lib/batched_sigs.cc:191-192 | the digests of a node range stand in 32-byte slots in node order |
| `MerkleTree.ProofLength` | src/lib/batched_sigs.cc:178-194 | a path has as many digests as the groups from its leaf to the root have nodes, which n, m and the leaf determine |
| `TreeHeight.HeightBoundsPower` | src/lib/batched_sigs.cc:98-109 | the division loop counts the levels: n is below m to the height and, if not zero, at least m to the height less one |
| `TreeHeight.DepthAtMostHeight` | src/lib/batched_sigs.cc:97-109 | no node of the tree is deeper than getTreeHeight(n, m) |
| `TreeHeight.ProofSize` | src/lib/batched_sigs.cc:165-193 | all digests of a path fit in m * height slots, so no copy leaves the buffer of max_size bytes |
| `TreeHeight.HeightCache.GetTreeHeight` | src/lib/batched_sigs.cc:97-109 | resizes the table to n + 1 entries, fills an entry that is zero and returns it |
| `TreeHeight.AnswerOfRun` | src/lib/batched_sigs.cc:97-109 | after any calls the answer is the height for the arity that last filled the entry, or for this call's arity when the entry was cut off or never filled |
| `TreeHeight.OneArityAgrees` | src/lib/batched_sigs.cc:97-109 | on a thread that uses one arity every cached answer is the plain count |
| `TreeHeight.TwoAritiesDisagree` | src/lib/batched_sigs.cc:97-109 | with two arities the cache can answer wrongly |
| `BatchedSigs.PackIntRoundTrip` | src/lib/batched_sigs.cc:41-57 | packInt and unpackInt undo each other in both directions |
| `BatchedSigs.PackIntBytes` | src/lib/batched_sigs.cc:41-48 | packInt writes the four bytes of the number, high byte first |
| `BatchedSigs.FillLeaves` | src/lib/batched_sigs.cc:129-137 | every leaf slot holds the digest of its message |
| `BatchedSigs.HashGroup` | src/lib/batched_sigs.cc:142-152 | hashing one sibling group adds the parent's digest to the filled slots and disturbs none of the later ones |
| `BatchedSigs.FillParents` | src/lib/batched_sigs.cc:140-155 | the bottom-up loop leaves every slot with its node's digest |
| `BatchedSigs.BuildTree` | src/lib/batched_sigs.cc:118-155 | each node is written exactly once, after everything its digest reads, and no leaf is overwritten; at the end every slot has its node's digest |
| `BatchedSigs.GroupEnds` | src/lib/batched_sigs.cc:141-154 | the loop index always stands at the last child of the next parent, down to the root |
| `BatchedSigs.AppendPath` | src/lib/batched_sigs.cc:178-194 | the copied groups are the proof of the leaf, level by level; the copying leaves the buffer exactly when the path has more digests than there is room for |
| `BatchedSigs.SignOne` | src/lib/batched_sigs.cc:174-198 | the shared buffer yields message i's signature and keeps the common head for the next one, exactly when its path fits |
| `BatchedSigs.GenerateBatchedSignatures` | src/lib/batched_sigs.cc:110-202 | signature i is root signature, n, i and the proof of leaf i; fails exactly on an empty message, and overflows exactly when m times the cached height plus one is less than the number of digests on some path, which n, m and i determine |
| `BatchedSigs.SmallerArityFits` | src/lib/batched_sigs.cc:97-109 | a height cached for the same or a smaller arity leaves room for every path |
| `BatchedSigs.LargerArityOverflows` | src/lib/batched_sigs.cc:165-193 | a height cached for arity 8 does not leave room for a path of five messages at arity 2 |
| `SigVerifier.ComputeBatchedSignatureHash` | src/lib/batched_sigs.h:53-105 | the loop with its offsets computes the recursive walk, for any signature bytes: out of range, rejected, or a root digest and root signature |
| `SigVerifier.CheckLevel` | src/lib/batched_sigs.h:86-97 | one iteration reads the level that the walk reads, at the offset reached |
| `SigVerifier.SignatureVerifies` | src/lib/batched_sigs.h:54-105 | completeness: for every batch, arity and index the verifier accepts message i with generated signature i and ends at the signed root |
| `SigVerifier.WalkBinds` | src/lib/batched_sigs.h:81-99 | a walk that ends at the batch's root started at the digest of its node, or the bytes read on the path collide with the batch's own |
| `SigBinding.AcceptedMessageIsSigned` | src/lib/batched_sigs.h:65-104 | binding: what is accepted under the batch's own size and any index is the batch's message at that index if there is one, and at an index that is not loose some message of the batch, or a collision on the path is named |
| `SigBinding.LooseAccepts` | src/lib/batched_sigs.h:79-99 | at a loose index, something that is not in the batch is accepted without any collision |
| `SigBinding.BindsIffNotLoose` | src/lib/batched_sigs.h:65-104 | an index binds, over all batches of a size, if and only if it is not loose |
| `SigBinding.StraightToRoot` | src/lib/batched_sigs.h:65-81 | under any size named, an index that starts the walk before node 1 has the digests under the root accepted as a message |
| `SigSizes.WalkBindsUnder` | src/lib/batched_sigs.h:81-99 | whatever last leaf the verifier computes, a walk from a node of the batch's tree to its root started at that node's digest, over groups of the batch's own sizes, or named a collision |
| `SigSizes.AcceptedIsContent` | src/lib/batched_sigs.h:65-104 | under any size and index whose walk starts in the batch's tree, what is accepted is the content of that node, a message or its children's digests, or a collision is named |
| `SigSizes.ContentIsAccepted` | src/lib/batched_sigs.h:65-104 | and where the group sizes match, that content is accepted without a collision |
| `SigSizes.BindsUnderIff` | src/lib/batched_sigs.h:65-104 | such a size and index bind, over all batches of n, if and only if the start is a leaf or some group size differs |
| `SigSizes.BeyondLeaves` | src/lib/batched_sigs.h:81-99 | a walk from beyond the last leaf enters the tree at a node whose content it read as whole digests, or names a collision |
| `SigSizes.MessageAsDigests` | src/lib/batched_sigs.h:65-99 | a batch of one message that consists of two digests has the string behind the first accepted under size 2 |
| `SigVerdict.WalkVerdict` | src/lib/batched_sigs.h:81-99 | with the offset of every level written out: the walk ends at the root if and only if all levels are there and agree, is rejected if and only if the first level not passed has another digest, and leaves the signature if and only if that level is cut short |
| `SigVerdict.VerifyVerdict` | src/lib/batched_sigs.h:54-105 | the same for the whole verifier and arbitrary signature bytes, with the digest and root signature it answers |
| `SigVerdict.OtherMessageRejected` | src/lib/batched_sigs.h:90-93 | with a generated signature of a batch of two or more, a message whose digest is not that of message i is rejected |
| `SigVerdict.CutShortLeaves` | src/lib/batched_sigs.h:83-97 | a generated signature cut short at any byte makes the verifier read outside it |
| `SigVerdict.SizeZero` | src/lib/batched_sigs.h:65-81 | a signature that names size 0 at arity 2 ends at a root if and only if its index is 0, 1 or above 2^31, and then with the digest of the message |
| `TcpFraming.WriteFrame` | src/lib/tcptransport.cc:453-490 | the writer produces magic, sizes, type and data, and its assertion fails exactly on empty data |
| `TcpFraming.FrameParses` | src/lib/tcptransport.cc:823-868 | a written frame, followed by anything, parses to its message and size if and only if the data are not empty and the size is below the limit; otherwise an assertion fails |
| `TcpFraming.FrameParsesBelowLimit` | src/lib/tcptransport.cc:823-868 | the same with the limit and the first four bytes written out |
| `TcpFraming.ParsesIff` | src/lib/tcptransport.cc:822-880 | for any bytes, a message and a size are read if and only if the buffer starts with a frame of that message and size, unread bytes at the end of a frame allowed |
| `TcpFraming.WaitsIff` | src/lib/tcptransport.cc:822-844 | for any bytes, the reader waits if and only if the magic number or the size is incomplete, or a size below the limit announces more than there is |
| `TcpFraming.PartialFrameWaits` | src/lib/tcptransport.cc:822-844 | any proper prefix of a frame delivers nothing and waits |
| `TcpFraming.Connection.OnReadable` | src/lib/tcptransport.cc:815-892 | one read callback parses everything complete and keeps the rest |
| `TcpFraming.DrainAppend` | src/lib/tcptransport.cc:822-892 | parsing first and receiving more later is parsing all of it at once |
| `TcpFraming.ChunkingDoesNotMatter` | src/lib/tcptransport.cc:815-892 | for any bytes, malformed ones too, delivery depends on the stream and not on how it is cut into chunks |
| `TcpFraming.StreamDelivery` | src/lib/tcptransport.cc:815-892 | after any chunks of any prefix of a stream of frames, exactly the completed messages are delivered in order and exactly the unfinished frame's bytes are buffered |
| `TcpFraming.WholeStreamDelivery` | src/lib/tcptransport.cc:815-892 | after the whole stream, all messages are delivered and nothing is buffered |
| `UdpFraming.SerializeMessage` | src/lib/udptransport.cc:491-533 | the writer's offsets produce the packet; its assertion fails exactly on empty data |
| `UdpFraming.BodyDecodes` | src/lib/udptransport.cc:675-709 | decoding gives back type, data and metadata, and fails exactly on empty data |
| `UdpFraming.DecodesIff` | src/lib/udptransport.cc:675-709 | any bytes decode to a message and metadata if and only if they are its serialization, unread bytes behind it allowed |
| `UdpFraming.PacketCount` | src/lib/udptransport.cc:554-596 | a message is one packet if it fits in 9000 bytes with its headers, and otherwise as many as 9000 bytes of the body each take |
| `UdpFraming.MagicBytes` | src/lib/udptransport.cc:491-596 | the first four bytes of packets and of fragments |
| `UdpFraming.WholePacket` | src/lib/udptransport.cc:766-772 | a packet with the magic number of whole ones delivers exactly what its bytes serialize and otherwise fails an assertion, and leaves reassembly alone |
| `UdpFraming.JunkIsIgnored` | src/lib/udptransport.cc:766-822 | a packet with neither magic number is ignored, and one of four bytes fails the assertion |
| `UdpFraming.FragmentFails` | src/lib/udptransport.cc:786-812 | a fragment fails an assertion if and only if its bytes are not as many as its header says, its message is older than the one under reassembly, or it completes something that does not decode |
| `UdpFraming.Sender.SendMessage` | src/lib/udptransport.cc:535-597 | a message goes out as one packet or as the fragments of its body under the next id, and only fragmented messages use up an id |
| `UdpFraming.SplitBody` | src/lib/udptransport.cc:573-596 | the loop cuts the body into pieces of the maximum size, with id, offset and total length in front |
| `UdpReassembly.FragmentReceived` | src/lib/udptransport.cc:771-799 | a fragment's header is read back as written |
| `UdpReassembly.FragmentStep` | src/lib/udptransport.cc:789-817 | with buffered data a prefix of the body: a piece in sequence extends the prefix or completes the message, any other piece, early or repeated, is ignored |
| `UdpReassembly.LossyFragments` | src/lib/udptransport.cc:771-817 | any subsequence of one message's fragments yields that message or nothing, and no assertion fails |
| `UdpReassembly.FragmentsInAnyOrder` | src/lib/udptransport.cc:771-817 | one message's fragments in any order and any number of times fail no assertion and deliver nothing but that message |
| `UdpReassembly.JunkDoesNotMatter` | src/lib/udptransport.cc:819-822 | packets with neither magic number between the others change nothing |
| `UdpReassembly.LossyRun` | src/lib/udptransport.cc:753-817 | on every order-preserving lossy run the id assertion never fails and what is decoded is an in-order subsequence of what was sent, byte for byte |
| `UdpReassembly.LosslessRun` | src/lib/udptransport.cc:753-817 | without loss, serializing, fragmenting, reassembling and decoding give back every message in order |
| `UdpReceiver.UdpTransport.ProcessPacket` | src/lib/udptransport.cc:753-915 | one packet: decode or reassemble, drop or hold by the rolls, deliver, then deliver what was held |
| `UdpReceiver.StaleMatters` | src/lib/udptransport.cc:766-767 | every packet is received as it came, unless it is shorter than four bytes and what is left in the buffer completes a magic number, which fails an assertion |
| `UdpReceiver.SendersDoNotInterfere` | src/lib/udptransport.cc:789-817 | what is decoded from one address in an interleaved run is what its own packets alone would give |
| `UdpReceiver.InterleavedRun` | src/lib/udptransport.cc:753-817 | the lossy guarantee holds for every sender of an interleaved run at once |
| `UdpReceiver.LosslessInterleavedRun` | src/lib/udptransport.cc:753-915 | without loss, drops and holds, every message of every sender is delivered unchanged and in its sender's order, however the senders interleave |
| `UdpReceiver.AcceptedSurvives` | src/lib/udptransport.cc:753-830 | what goes on to the reorder buffer is what each sender's own packets decode to, at the arrivals at which they do, without those that rolled a drop |
| `UdpReceiver.HeldComesAfterSuccessor` | src/lib/udptransport.cc:823-915 | for every sequence of rolls the delivered messages and the held one are those not dropped, in exactly the order in which each held message comes right after its successor |
| `UdpReceiver.NothingLostInReorder` | src/lib/udptransport.cc:823-915 | the delivered messages and the held one are a permutation of those not dropped |
| `UdpReceiver.NoRollsNoReorder` | src/lib/udptransport.cc:823-846 | without drops and holds everything decoded is delivered in order |
| `LockServer.Replica.ExecInconsistentUpcall` | src/lockserver/server.cc:44-70 | an unlock frees the key only for its holder, and a lock is ignored |
| `LockServer.Replica.ExecConsensusUpcall` | src/lockserver/server.cc:72-111 | a lock is granted on a free key and to its holder; the reply says so and the table changes accordingly |
| `LockServer.StatusMeans` | src/lockserver/server.cc:72-111 | a lock is answered with 0 exactly if the client then has the key and with -1 otherwise, an unlock with 0 exactly if it had it and with -2 otherwise; other keys do not change |
| `LockServer.SetDifference` | src/lockserver/server.cc:155-158 | the library's merge walk, for sequences in any order |
| `LockServer.WalkByPositions` | src/lockserver/server.cc:155-158 | for any two listings, a member of the first is copied exactly if, from where the second stands, everything smaller is passed without meeting its equal; an equal is passed with it |
| `LockServer.WalkLeavesNobodyOut` | src/lockserver/server.cc:155-158 | in any order, what is not in the second is always copied, and nothing but members of the first is |
| `LockServer.WalkOfItself` | src/lockserver/server.cc:155-158 | a listing taken from itself leaves nothing |
| `LockServer.AscendingWalk` | src/lockserver/server.cc:155-158 | on ascending sequences the walk is the set difference |
| `LockServer.WalkIsDifferenceIffAscending` | src/lockserver/server.cc:155-158 | the walk is the set difference for all sets if and only if sets are always listed in ascending order |
| `LockServer.SyncIsRightIffAscending` | src/lockserver/server.cc:119-167 | Sync finds, in every record and for every key, who locked and did not unlock, if and only if sets are always listed in ascending order |
| `LockServer.SyncLeavesNobodyOut` | src/lockserver/server.cc:152-161 | in any order, Sync finds all who locked and did not unlock and only clients that locked, and nobody where the same clients locked and unlocked |
| `LockServer.ReleasedIsFound` | src/lockserver/server.cc:155-158 | with hash sets listed as [2, 1] and [1], a client that unlocked is found with the one that did not |
| `LockServer.Collect` | src/lockserver/server.cc:123-150 | the first loop of Sync gathers, per key, the clients with a successful lock and with a successful unlock |
| `LockServer.Replica.Sync` | src/lockserver/server.cc:119-167 | for hash sets listed in any order: the assertion holds exactly when the walk leaves no key to two clients, and then each key goes to the one client left, or to nobody |
| `LockServer.Replica.Merge` | src/lockserver/server.cc:169-244 | every operation gets a result; existing locks stay; a free key goes to the lowest operation in d with a successful majority, which alone keeps status 0 and is entered in the table; everything in u is rejected |
| `LockServer.FirstSuccessWins` | src/lockserver/server.cc:199-221 | a free key with any successful proposal has a winner no later than that proposal |
| `LockReplay.GrantedOrReleased` | src/lockserver/server.cc:44-111 | in every history the holder and those whose lock was ignored have a successful lock in the record, and every other client with one has an unlock there |
| `LockReplay.WhoIsLeft` | src/lockserver/server.cc:152-161 | locked minus unlocked is the holder, unless it ever unlocked the key, and the clients with an ignored lock and no unlock |
| `LockReplay.AscendingLeftOvers` | src/lockserver/server.cc:152-161 | with hash sets listed in ascending order, Sync works per key with who locked and did not unlock |
| `LockReplay.SyncPanicsUnlessOneLeft` | src/lockserver/server.cc:160 | on the record of any history the assertion of Sync holds if and only if at most one such client is left at each key |
| `LockReplay.IgnoredLockPanics` | src/lockserver/server.cc:55-56 | a lock sent as an inconsistent operation while another client holds the key makes it fail |
| `LockReplay.SyncEqualsReplay` | src/lockserver/server.cc:119-167 | where the assertion holds, the rebuilt table is the table left by executing the history if and only if no holder has ever unlocked the key it holds and nobody but the holder has an ignored lock without an unlock |
| `LockReplay.DisciplinedSync` | src/lockserver/server.cc:119-167 | it is, for clients that lock through consensus, unlock only what they hold and never lock a key again after releasing it |
| `LockReplay.RelockIsLost` | src/lockserver/server.cc:152-166 | lock, unlock, lock by one client breaks the condition |
| `LockClient.Decide` | src/lockserver/client.cc:142-171 | success exactly with two or more successful replies; the key is that of the last reply string |
| `LockClient.TallyCountsReplicas` | src/lockserver/client.cc:148-159 | the count is the number of distinct replicas that replied with success |
| `LockClient.DecideMeansDecided` | src/lockserver/client.cc:142-171 | a success on the tally of replies from a run means that as many replicas as replied with success had granted the lock |
| `LockClient.GrantLasts` | src/lockserver/server.cc:44-111 | a grant at a replica lasts, in any run, until that replica executes the holder's unlock |
| `LockClient.SecondGrantNeedsRelease` | src/lockserver/server.cc:44-111 | between grants of a key to two clients at one replica lies the first one's unlock |
| `LockClient.ExclusionIffAtMostThree` | src/lockserver/client.cc:164-168 | over all runs, two successful decisions for one key imply an executed unlock in between, if and only if there are at most three replicas |
| `LockViewChange.FastQuorumOverlap` | src/lib/configuration.cc:278-288 | a fast quorum meets any quorum in FastQuorumSize - f replicas, the threshold for d and a strict majority of f + 1 |
| `LockViewChange.RestoredOrFree` | src/replication/ir/replica.cc:529-556 | Sync gives a key to the client left over for it among the settled entries and to nobody else: with ascending listings, to the one that locked and did not unlock it |
| `LockViewChange.GrantedIffLowest` | src/lockserver/server.cc:182-221 | the merge grants an operation of d if and only if it succeeded, Sync left nobody at the key, and no operation of d with a lower id succeeded there |
| `LockViewChange.OneClientInD` | src/replication/ir/replica.cc:524-591 | with no release of the key, at most one client has majority-successful locks on it in d, from which settled operations are taken out |
| `LockViewChange.FastGrantIsInD` | src/replication/ir/replica.cc:559-591 | an operation that a fast quorum granted and that is not settled is in d with success, for every quorum |
| `LockViewChange.FastGrantWins` | src/lockserver/server.cc:182-221 | if such a key is left to nobody, the lowest operation in d that succeeded on it wins it, which is no later than the granted one, and without a release is the same client's |
| `LockViewChange.FastGrantSurvives` | src/replication/ir/replica.cc:494-605 | a lock granted by a fast quorum is held by its client after Sync and Merge if and only if Sync left it to that client, or to nobody with the lowest success in d that client's; without a release it always is |
| `LockViewChange.OthersAreRejected` | src/lockserver/server.cc:182-221 | another client's proposal for the key is answered with success if and only if it succeeded, the key is left to nobody and no lower success is in d; without a release it never is |
| `LockViewChange.GrantKeepsItsStatus` | src/lockserver/server.cc:199-215 | the granted operation keeps its success if and only if the key is left to nobody and no lower operation succeeded on it; without a release, if and only if its client has no settled lock on the key and no lower lock on it in d |
| `LockViewChange.ReleasedLockComesBack` | src/lockserver/server.cc:182-221 | three replicas on which client 1 locked and released a key before client 2 was granted it: with only the release settled, the key goes to client 1 and client 2 is turned down |
| `LockViewChange.RestoredGrantIsRejected` | src/lockserver/server.cc:199-215 | a second lock of one client, granted by all, is turned down because Sync restored the first |
| `LockViewChange.LowerGrantRejects` | src/lockserver/server.cc:199-215 | and it is turned down on a free key because the first is in d |
| `LockViewChange.DecidedIsBacked` | src/lockserver/client.cc:164-168 | a lock that the client's decision reported as granted was granted in the histories of two replicas |
| `LockViewChange.SettledAgreesIffUpToThree` | src/lockserver/client.cc:164-168 | for all groups of 2f+1 replicas, a fast grant of a key that was never released leaves no settled lock on it to another client, if and only if f is at most 3 |
| `LockViewChange.NeverReleasedSurvivesIff` | src/replication/ir/replica.cc:494-605 | every fast grant of a key that was never released survives every view change of groups of 2f+1 replicas, if and only if f is at most 3 |
| `Lookup3.MixIsReversible` | src/lib/lookup3.cc:43-95 | mix loses nothing: an inverse undoes it on all 96 bits |
| `Lookup3.FinalIsReversible` | src/lib/lookup3.cc:122-131 | final loses nothing either |
| `Lookup3.RotIs` | src/lib/lookup3.cc:41 | rot puts the high k bits below the low 32 - k |
| `Lookup3.XorBitAt` | src/lib/lookup3.cc:86-131 | a bit of the exclusive or is set exactly if the two bits differ |
| `Lookup3.AddMasked` | src/lib/lookup3.cc:198-216 | a masked 32-bit read adds exactly the bytes inside the key, whatever lies behind it |
| `Lookup3.AddHalves` | src/lib/lookup3.cc:256-284 | the 16-bit tail cases add the same |
| `Lookup3.AddBytes` | src/lib/lookup3.cc:310-327 | the byte tail cases add the same |
| `Lookup3.HashByWords` | src/lib/lookup3.cc:176-238 | reading words hashes the key's bytes and nothing else |
| `Lookup3.HashByHalves` | src/lib/lookup3.cc:239-285 | reading halfwords gives the same hash |
| `Lookup3.HashByBytes` | src/lib/lookup3.cc:286-331 | reading bytes gives the same hash |
| `Lookup3.HashLittle` | src/lib/lookup3.cc:161-331 | the result does not depend on alignment, nor on bytes past the end |
| `SimTransport.Erase` | src/lib/simtransport.cc:267-281 | removes every timer with the id and says whether there was one |
| `SimTransport.Transport.Timer` | src/lib/simtransport.cc:254-265 | a timer goes behind all timers due no later, under a new id |
| `SimTransport.Transport.Cancel` | src/lib/simtransport.cc:267-281 | the timer is gone and counts as cancelled |
| `SimTransport.Transport.SendMessage` | src/lib/simtransport.cc:119-161 | a message is queued now or by a timer after its delay |
| `SimTransport.Transport.CancelAllTimers` | src/lib/simtransport.cc:283-288 | no timer is left and none will be processed |
| `SimTransport.Transport.Stop` | src/lib/transport.cc:92-99 | a timeout cancels its own timer |
| `SimTransport.Transport.Reset` | src/lib/transport.cc:78-90 | a timeout stops and arms one new timer |
| `SimTransport.Transport.Run` | src/lib/simtransport.cc:212-239 | for any handlers, the loop delivers and fires as specified and its assertion never fails |
| `SimTransport.RunKeeps` | src/lib/simtransport.cc:212-239 | virtual time never decreases, and what was delivered, fired and cancelled stays so |
| `SimTransport.SchedulerGuarantees` | src/lib/simtransport.cc:212-288 | in every reachable state: timers fired by due time with ties in creation order, each at most once and never after being cancelled; messages delivered in queue order; the next timer is not overdue |
| `SimTransport.TimeoutsOwnOneTimer` | src/lib/transport.cc:71-105 | without CancelAllTimers, an active timeout owns exactly the pending timer it points at, and a stopped one none |
| `SimTransport.CancelAllBreaksActiveTimeouts` | src/lib/simtransport.cc:283-288 | cancelling all timers keeps that if and only if no timeout is active |
| `SimTransport.CancelAllStrandsTimeout` | src/lib/simtransport.cc:283-288 | a run that starts a timeout and cancels all timers leaves it active without a timer |
| `SimRuns.QueueIsWhatWasSent` | src/lib/simtransport.cc:119-161 | over every run, the messages ever queued are those sent without delay and those of the delayed sends whose timers ran, in the order in which that happened |
| `SimRuns.NoTimerIsLost` | src/lib/simtransport.cc:212-288 | over every run, every timer that was set has run, is pending for the time it was set for, or was cancelled |
| `SimRuns.EverythingIsDelivered` | src/lib/simtransport.cc:212-239 | when a run has come to rest with timers processed, exactly the messages that arrived are delivered, in that order, and every delayed one unless its timer was cancelled |
| `SimRuns.EverySentIsDelivered` | src/lib/simtransport.cc:119-239 | in a run whose handlers cancel nothing, no delayed message is cancelled, and each is delivered once the run has come to rest |
| `SimRuns.CancelAllStopsTimers` | src/lib/simtransport.cc:283-288 | after CancelAllTimers no timer ever runs, those set later included |
| `SimRuns.FiresRegularly` | src/lib/transport.cc:71-105 | a timeout that is left alone fires when it is due and then once every delay, whatever other handlers, timeouts and messages do |
| `SimRuns.NewDelayCounts` | src/lib/transport.cc:64-90 | a delay set while the timeout is stopped is the one it is next armed with |
| `ThreadPoolRuns.NothingDangles` | src/lib/threadpool.cc:283-445 | no step follows a pointer to an info, event or job that is not there |
| `ThreadPoolRuns.StepKeeps` | src/lib/threadpool.cc:283-513 | every step of every thread keeps the invariant |
| `ThreadPoolRuns.EveryState` | src/lib/threadpool.cc:283-513 | every state of every run satisfies the invariant, the order of each list, and that entries are on and workers run from the list that the id selected at dispatch |
| `ThreadPoolRuns.RunsOnItsWorkers` | src/lib/threadpool.cc:304-314 | in every state, a job for any worker has run on a shared worker and a job for an id on the indexed worker id % n, with n the workers there were when it was enqueued |
| `ThreadPoolRuns.FrontCanBeTaken` | src/lib/threadpool.cc:427-513 | in every state, the oldest entry of a producer can be taken exactly by the idle workers that may run its job, with no indexed workers too |
| `ThreadPoolRuns.NeverStuck` | src/lib/threadpool.cc:283-513 | while anything is under way, some thread that is at work can take a step |
| `ThreadPoolRuns.ExactlyOnePlace` | src/lib/threadpool.cc:283-314 | in every interleaving each EventInfo is in exactly one place: free, with a dispatcher, queued, with a worker, activated, or in its callback |
| `ThreadPoolRuns.CallbackExactlyOnce` | src/lib/threadpool.cc:283-373 | no callback runs twice or with another job's result or for a detached job, and once nothing is under way every job with a callback has had it |
| `ThreadPoolRuns.SameListInOrder` | src/lib/threadpool.cc:304-314 | jobs of one producer that ran from one list started in dispatch order |
| `ThreadPoolRuns.SameIdInOrder` | src/lib/threadpool.cc:427-513 | with a fixed worker count, jobs one producer sends under the same id run on one worker in dispatch order |
| `ThreadPoolRuns.SameIdSameWorker` | src/lib/threadpool.cc:434-442 | with any additions of workers, jobs under one id run on one worker if and only if the id has the same remainder by the counts at their dispatches, and then those of one producer in order |
| `ThreadPoolRuns.OrderLostWhenWorkersAdded` | src/lib/threadpool.cc:470-513 | for every id whose remainder changes when workers are added there is a run in which the later job starts first, on another worker |
| `Latency.BucketOf` | src/lib/latency.cc:101-107 | the shift loop computes the integer logarithm: the value lies in [2^b, 2^(b+1)), and b is below 64, so the assertion holds |
| `Latency.Log2OfPow2` | src/lib/latency.cc:193 | 2^b goes back to bucket b |
| `Latency.RecordDescribes` | src/lib/latency.cc:113-124 | after any samples a distribution has their number per power of two, their count and total modulo the counter widths, their least and their greatest value |
| `Latency.RecordAfterMerge` | src/lib/latency.cc:185-210 | recording a sample before or after a merge leaves the same pool |
| `Latency.MergeIsRecording` | src/lib/latency.cc:185-210 | merging a profile gives the pool that recording its samples directly gives, order of types included and with counters that wrap, or both need more than five types |
| `Latency.FewSamplesAreLive` | src/lib/latency.cc:187-193 | with fewer than 2^32 samples no distribution has only empty buckets |
| `LatencyProfile.SumIsRecording` | src/lib/latency.cc:184-210 | for a summand of fewer than 2^32 samples the merge and recording its samples into the destination give the same pool, or too many types for both, and no null pointer is followed |
| `LatencyProfile.Profile.AddHist` | src/lib/latency.cc:88-111 | a count goes to the value's bucket of the type, which takes the next distribution of the pool the first time; fails exactly on a sixth type |
| `LatencyProfile.Profile.Add` | src/lib/latency.cc:113-124 | records one sample |
| `LatencyProfile.Profile.Sum` | src/lib/latency.cc:184-210 | both loops together merge the pools, those of one profile with itself included; panics exactly when the destination's types and the summand's live types are more than five, and otherwise follows a null pointer exactly when a type without live buckets is not in the destination |
| `LatencyProfile.WrappedBuckets` | src/lib/latency.cc:187-208 | 2^32 samples of one value leave only empty buckets, so a merge into an empty profile follows a null pointer |
| `Placement.StartServers` | experiment-scripts/utils/experiment_util.py:275-291 | each server gets the processes computed for it, in order; fails exactly on a division by zero |
| `Placement.WriteConfig` | experiment-scripts/lib/indicus_codebase.py:727-740 | the lines of each group, local and remote; fails exactly on a division by zero |
| `Placement.GroupMatches` | experiment-scripts/utils/experiment_util.py:277-281 | with full servers, or in the first round of groups, the rotated start order covers exactly the configured replicas |
| `Placement.StartedAsConfigured` | experiment-scripts/lib/indicus_codebase.py:727-733 | servers, indices and process numbers agree in all groups if and only if n divides the servers or no group comes after the first round |
| `Placement.StartedOnce` | experiment-scripts/utils/experiment_util.py:280-281 | no replica of a group is started twice |
| `Placement.EachServerRunsItsReplicas` | experiment-scripts/lib/indicus_codebase.py:415-423 | then each server's commands start exactly the replicas configured on it, with the configured index |
| `Placement.NoSharedAddress` | experiment-scripts/lib/indicus_codebase.py:732-740 | no two replicas of the configuration share host and port, locally or remotely |
| `MemorySize.FmtSize` | src/lib/memory.cc:38-60 | prints with the largest suffix that divides the size |
| `MemorySize.PartsAreLargest` | src/lib/memory.cc:38-60 | the size is the number printed times 1024 to the suffix, and only with the last suffix is the number still divisible |
| `MemorySize.StrtoullMeans` | src/lib/memory.cc:64-66 | blanks, a sign, then the digits of base 16, 8 or 10 by their prefix: the number, negated after a minus sign, or the largest number |
| `MemorySize.ReadSize1` | src/lib/memory.cc:62-78 | a number in any base, with the shifts of its suffix |
| `MemorySize.ReadSize` | src/lib/memory.cc:80-100 | the loop adds up summands joined with plus signs |
| `MemorySize.SizeRoundTrip` | src/lib/memory.cc:38-78 | every 64-bit size reads back from its printed form, which is read to its end |
| `MemorySize.JoinedSizesReadAsSum` | src/lib/memory.cc:80-100 | any list of printed sizes joined with plus signs reads as the sum modulo 2^64, and the whole text is read |

## Left out

- GenerateBatchedSignatures: batches whose node numbers exceed the source's 32-bit int are excluded by its requires.
- AcceptedMessageIsSigned: a hash into 32 bytes cannot be injective, so the theorems on binding name a collision instead of assuming there is none.
- Sync: the order in which a hash set lists its members depends on the set only, not on how it was filled.
- BindsUnderIff: is about walks that start inside the batch's tree; of those from beyond the last leaf `BeyondLeaves` says what they read, not for which sizes some batch lets them through.
- FastGrantSurvives: the records of the quorum are all of the latest view, histories start in that view, and a settled entry for the granted operation has the result its client was told, which is what that client finalizes.
- ProcessPacket: ordered-multicast metadata and delivery to multicast groups are not modelled, nor failed reads of the socket.
- HashLittle: the key is readable up to the end of its last word when it is aligned to four bytes, as the source says of its hardware; the Valgrind variant, `hashbig` and big-endian machines are not modelled.
- TimeoutsOwnOneTimer: handlers may do anything but cancel all timers, cancel a timer of a timeout or set the delay of an active one, which the source asserts against.
- SchedulerGuarantees: the clock and timer ids are unbounded; message filters are represented by their effect, which is to drop or to delay.
- SendMessage: fragment ids are unbounded in the sender; the theorems on runs ask for fewer than 2^64 messages.
- EveryState: shared memory is modelled as one atomic step per locked or single action; free lists, queues and events are values of the state rather than objects, so C++ memory ordering and the `running` flag are not captured; a request list is first in, first out for each producer, which is what its library promises; dispatching under an id while there are no indexed workers, which divides by zero, is no step.
- MergeIsRecording: types are below 127, the size of the source's table.
- Closed TCP connections, sockets, libevent, address lookup, CPU pinning and the other thread pool calls, which add no new way of passing an event.
- Signature and hash primitives, keys and the protocol buffer encoding, whose strings are datatypes here.
- The rest of IR replication, the stores and their protocols.
- Killing of servers and client placement in the experiment scripts, which repeat the same arithmetic, and the choice of n by protocol.
- Dumping, flushing and timing of latency profiles.
