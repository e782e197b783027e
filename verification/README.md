# DhNet in Dafny

DhNet is a game server on Windows completion ports, with a test client. This project models the
parts of it that carry hard invariants and proves those invariants.

| file | models |
|---|---|
| `Basics`, `Ordered` | shared types and constants; walking a set in key order |
| `LockGraph`, `DeadLockProfiler`, `LockRuns`, `LockNames` | the lock-order profiler: graph theory, the depth-first search, whole runs over any number of threads, and the same runs told by lock names alone |
| `RwLock` | the reader-writer spin lock, one atomic access at a time |
| `JobQueue` | the serial job queue of rooms and lobbies, one atomic access at a time |
| `SendPool`, `SendPoolRuns` | the chunk allocator and every interleaving of allocation and two-phase release |
| `Framing`, `RecvSession` | cutting the byte stream into packets; the receive buffer and loop |
| `SendPipeline` | the send queue, the batch in flight and the registered flag |
| `Slots`, `Places`, `LobbyPacket`, `LobbyAssign` | slot reservation, rooms, lobbies and their systems, the member list packet, concurrent assignment |
| `AesGcm`, `Sessions`, `Handshake` | the sealed payload, the two session objects, and both sides over two channels |
| `DbWorkers` | the database worker pool and its connections |
| `Scenario`, `Metrics` | the load client's script, its pings and its reports |
| `Hex` | the hexadecimal text of hashes and salts |

Objects that the program updates in place are classes whose methods are tied to functions on
values. Interleavings are step systems over those same functions: a `Run` is any finite sequence of
steps, so a lemma about `Run` holds in every reachable state.

## What the proofs found

Where the code does not do what one would expect in all cases, the exact condition is proved.

- `LockRuns.RingsSeenIffKnownReleases`: looking up an unknown name in `PopLock` inserts it with id 0,
  so a release under a never-locked name passes when the lock held has id 0
  (`UnknownUnlockAccepted`). From then on two names share an id, and two threads can take them in
  opposite order unseen (`NameRingUnseen`). The profiler sees every ring of lock names to come iff
  every release so far used a known name; that is also exactly when the id tables are inverse to each
  other (`FaithfulIffKnownReleases`).
- `RwLock.ExclusionIffProperIds`: the lock keeps 16 bits of its owner's id, and thread ids come from a
  32-bit counter, or are 0 for a thread that never called `InitTLS`. Used by more than one thread, the
  lock excludes iff no id has 0 as its lower 16 bits and none has another thread's id as its lower
  16 bits (`InvisibleWriter` and `MistakenWriter` are the failing runs).
- `RwLock.RecursionIffSmallId`: a writer may take the lock again iff its id fits 16 bits. With a larger
  id it does not recognise itself and waits for itself, and no thread gets the lock again
  (`SelfDeadlock`).
- `SendPoolRuns.UsageExactBelow64`: the 16-bit usage counter is exact iff fewer than 64 chunks are in
  use; `UsageWraps` is a run that reports 0 for 64 chunks.
- `SendPipeline.StuckIffEarlySend`: a packet sent before the session is connected takes the flag and
  nothing ever gives it back (`EarlySendSticks`). A connected session is stuck iff that happened.
- `DbWorkers.StartNeverExhausted`: the comment at the start-up says every thread has a connection;
  the thread count is the configured size, so that holds iff all connections came up, or none did.
  `StartAlwaysDrains`: with no connection there is no worker, and tasks accepted are never run.
- `Slots.FullBranchUnreachable`: the "room is full" branch of `Room::Enter` is dead code.
- `Handshake.PoliteIffNeverBreaks`: application packets never lead to a violation iff each of them
  waited for its side's handshake. The pings of the load client do not wait
  (`DhNet_Client/DhNet_StressTest/ScenarioHandlers.cpp:240-247`).

The header is the packet number followed by the size, as in `PacketHeader.h`; the repository's README
says size, then number.

## Model

`RwLock` models lines 6-103 of `DhUtil/Lock.cpp`, `JobQueue` lines 5-72 of `DhUtil/JobQueue.cpp` and
`RecvSession.RecvBuffer` lines 14-50 of `DhNet_Server/ServerCore/RecvBuffer.cpp`. Their rows cite the
promise, the declaration or the use of that code.

| member | source | states |
|---|---|---|
| LockGraph.TopologicalOrderExcludesCycles | DhUtil/DeadLockProfiler.cpp:57-124 | a finishing order in which every edge leads back excludes every cycle of the graph |
| LockGraph.ReportIsCycle | DhUtil/DeadLockProfiler.cpp:106-119 | whatever has the shape of a logged report is a real cycle |
| DeadLockProfiler.Finish | DhUtil/DeadLockProfiler.cpp:89-123 | a node whose successors are all finished may finish: the finishing order stays topological and the path loses its last node |
| DeadLockProfiler.LaterIsDone | DhUtil/DeadLockProfiler.cpp:100-102 | a node discovered after the innermost unfinished one is already finished, so skipping it misses nothing |
| DeadLockProfiler.ClosedReport | DhUtil/DeadLockProfiler.cpp:108-117 | the edges logged on the way up the parents form a cycle of recorded edges that visits no lock twice |
| DeadLockProfiler.Profiler.LogCycle | DhUtil/DeadLockProfiler.cpp:108-117 | the parent walk ends at the ancestor, never leaves the path, and logs a simple cycle |
| DeadLockProfiler.Profiler.DFS | DhUtil/DeadLockProfiler.cpp:74-124 | terminates; either reports a simple cycle or finishes the node, the unfinished nodes being exactly the search path |
| DeadLockProfiler.Profiler.CheckCycle | DhUtil/DeadLockProfiler.cpp:57-72 | crashes iff the recorded graph has a cycle, and then with a simple cycle as report |
| DeadLockProfiler.Profiler.PushLock | DhUtil/DeadLockProfiler.cpp:4-40 | crashes iff it records a new edge that closes a cycle; otherwise the id tables, history and stack advance as specified |
| DeadLockProfiler.Profiler.PopLock | DhUtil/DeadLockProfiler.cpp:42-55 | the verdict on an unlock, and the stack and id table after it |
| DeadLockProfiler.PushKeepsCoherence | DhUtil/DeadLockProfiler.cpp:4-40 | a push that survives keeps the history acyclic and every stack a walk of it |
| LockRuns.AliveIsCoherent | DhUtil/DeadLockProfiler.cpp:4-55 | in every run still alive the history is acyclic and adjacent stack entries are equal or a recorded edge |
| LockRuns.NoWaitRing | DhUtil/DeadLockProfiler.cpp:4-55 | no run still alive contains a ring of threads each waiting for a lock id the next one holds |
| LockRuns.NoNameRing | DhUtil/DeadLockProfiler.cpp:4-55 | while releases use known names, no run still alive contains a ring of threads where each holds one name and wants a different name held by the next |
| LockRuns.RingsSeenIffKnownReleases | DhUtil/DeadLockProfiler.cpp:4-55 | no alive continuation by pushes contains a ring of names iff every release so far used a known name |
| LockRuns.NameRingUnseen | DhUtil/DeadLockProfiler.cpp:28-51 | a run still alive in which two threads wait for each other's names |
| LockRuns.FaithfulIffKnownReleases | DhUtil/DeadLockProfiler.cpp:11-21 | names and ids stay inverse to each other iff every release used a known name |
| LockRuns.ReleaseByName | DhUtil/DeadLockProfiler.cpp:46-54 | in such runs an unlock is accepted iff it names the innermost lock of its thread, or its name is unknown and that lock has id 0 |
| LockRuns.UnknownUnlockAccepted | DhUtil/DeadLockProfiler.cpp:50-51 | a run in which unlocking a never-locked name is accepted |
| LockNames.HistoryIsOrder | DhUtil/DeadLockProfiler.cpp:24-37 | in every run still alive the history has an edge between two ids iff they differ and a lock with the second id was at some time taken directly under one with the first |
| LockNames.EdgeIffTakenUnder | DhUtil/DeadLockProfiler.cpp:24-37 | while releases use known names: an edge from x to y iff y was at some time taken directly under x |
| LockNames.PushCrashesIffNameCycle | DhUtil/DeadLockProfiler.cpp:24-40 | in such runs a push crashes iff it closes a circle in the order in which names were taken, so there are no false alarms |
| LockNames.VerdictByName | DhUtil/DeadLockProfiler.cpp:42-55 | the verdict on a release by name: MULTIPLE_UNLOCK iff the thread holds nothing, accepted iff it names the innermost lock |
| LockNames.AliveIffWellOrdered | DhUtil/DeadLockProfiler.cpp:4-55 | a run passes, with no release of a lock never taken, iff locks are released innermost first and never taken in circular order; stated on names alone |
| RwLock.LockInvariant | README.md:65 | in every run over proper ids the flag counts the readers, the write count the writers, and at most one thread has or claims the lock for writing |
| RwLock.ExclusionIffProperIds | DhUtil/ThreadManager.cpp:41-45 | over any ids, a writer excludes all other threads in every run iff there is one thread only, or no id has 0 or another thread's id as its lower 16 bits |
| RwLock.InvisibleWriter | DhUtil/TLS.cpp:4 | the failing run for an id with 0 as its lower 16 bits |
| RwLock.MistakenWriter | DhUtil/ThreadManager.cpp:41-45 | the failing run for an id with another thread's id as its lower 16 bits |
| RwLock.ReadUnlockNeverCrashes | DhUtil/Macro.h:24-29 | a matched read unlock never trips the MULTIPLE_UNLOCK check |
| RwLock.WriteUnlockCrashesIffNestedRead | DhUtil/Macro.h:24-29 | a matched write unlock trips the INVALID_UNLOCK_ORDER check iff that thread still holds a read lock |
| RwLock.ReaderEnters | README.md:65 | a reader gets in past any flag without owner, beside any number of readers |
| RwLock.WriterEnters | README.md:65 | a writer gets in past an empty flag |
| RwLock.OthersWait | README.md:65 | nobody gets in past an owner, and no writer past readers |
| RwLock.WriterLeaves | DhUtil/Macro.h:24-29 | a write unlock takes back one hold, and with the last one the flag is empty |
| RwLock.RestIsFree | DhUtil/Macro.h:24-29 | once nobody holds the lock it is as new |
| RwLock.RecursionIffSmallId | DhUtil/ThreadManager.cpp:41-45 | a writer that locks again, for writing or reading, gets in at once iff its id fits 16 bits |
| RwLock.SelfDeadlock | DhUtil/ThreadManager.cpp:41-45 | a writer that waits for itself does so in every continuation |
| JobQueue.SingleExecutor | README.md:64 | no two threads ever run jobs of the same queue at once |
| JobQueue.RunsInOrder | README.md:64 | jobs run in the order in which they were queued, none twice and none skipped |
| JobQueue.NothingStranded | DhUtil/JobQueue.h:9-38 | while a job is queued or on its way someone may run the queue; once no one may, every job has run |
| JobQueue.EmptyBatchGoesOn | DhUtil/JobQueue.h:9-38 | an executor that popped nothing goes round again rather than leaving with jobs counted |
| JobQueue.BusyNeverRuns | DhUtil/JobQueue.h:9-38 | a thread that raised the count from 0 runs the queue iff it runs no other, and hands it over otherwise |
| JobQueue.KeepsWithinSlice | DhUtil/JobQueue.h:9-38 | an executor with jobs left keeps the queue within its time slice and hands it over after it |
| JobQueue.HandedIsTaken | DhUtil/JobQueue.h:9-38 | a worker that takes a handed over queue becomes its executor |
| JobQueue.OneRoundDrains | README.md:64 | one round runs everything queued, in order, brings the count to 0 and ends, if nothing is pushed meanwhile |
| SendPool.Pools.GetAllocIndex | DhNet_Server/ServerCore/SendPool.cpp:100-131 | the least index that starts a run of count free chunks, -1 iff there is none, for every flag vector and count >= 1 |
| SendPool.FirstFitUnique | DhNet_Server/ServerCore/SendPool.cpp:100-131 | first fit has one answer, so the scan agrees with the direct search |
| SendPool.Pools.Alloc | DhNet_Server/ServerCore/SendPool.cpp:42-77 | a grant has the least number of chunks that exceeds the size, at the first fit; no space iff there is no such free run; the flags, wrapped usage and Sender after it |
| SendPool.AllocatedExactly | DhNet_Server/ServerCore/SendPool.cpp:53-68 | a grant puts exactly its chunks to use and enters its Sender; a refusal changes nothing |
| SendPool.Pools.ClearSender | DhNet_Server/ServerCore/Sender.cpp:21-33 | the half of a release before the lock: the Sender is cleared and its extent handed on |
| SendPool.Pools.DeAlloc | DhNet_Server/ServerCore/SendPool.cpp:79-98 | the result; on success exactly the extent's flags freed and the usage lowered modulo 65536, and on failure only those before the first chunk not in use |
| SendPoolRuns.FreshRunIsSeparate | DhNet_Server/ServerCore/SendPool.cpp:53-63 | a free run meets no lease, live or being released |
| SendPoolRuns.RunsNeverCrash | DhNet_Server/ServerCore/Sender.cpp:21-52 | no interleaving of allocations and two-phase releases makes an assertion of pool or Sender fire |
| SendPoolRuns.LeasesPartitionUse | DhNet_Server/ServerCore/SendPool.cpp:42-98 | the chunks in use are exactly those of the leases, and no two leases share one |
| SendPoolRuns.AllocGrants | DhNet_Server/ServerCore/SendPool.cpp:42-51 | in every run a packet of size n gets the first run of n / 1024 + 1 free chunks, and nothing iff there is none |
| SendPoolRuns.ReleaseReturns | DhNet_Server/ServerCore/Sender.cpp:21-33 | both halves of a release free exactly the chunks of the lease and end it |
| SendPoolRuns.UsageExactBelow64 | DhNet_Server/ServerCore/SendPool.cpp:65-93 | after every run the reported usage is exact iff fewer than 64 chunks are in use |
| SendPoolRuns.UsageWraps | DhNet_Server/ServerCore/SendPool.cpp:65 | a run with 64 chunks in use and a reported usage of 0 |
| Framing.DrainSplit | DhNet_Server/ServerCore/Session.cpp:234-261 | draining a stream at once or cut in two gives the same packets and leftover |
| Framing.ConnectionSplitIndependent | DhNet_Server/ServerCore/Session.cpp:218-268 | however a stream is split into completions, the outcome is that of the whole stream |
| Framing.ParseUnique | DhNet_Server/ServerCore/Session.cpp:234-261 | there is only one correct cut of a stream, and the loop finds it |
| Framing.ConnectionParses | DhNet_Server/ServerCore/Session.cpp:218-268 | a connection ends in a state iff that state is the correct cut of all it received, up to the first rejected or malformed packet |
| Framing.LeftoverShort | DhNet_Server/ServerCore/Session.cpp:236-248 | the leftover is shorter than the front packet's declared size, hence below 64 KiB |
| RecvSession.RecvBuffer.Clean | DhNet_Server/ServerCore/RecvBuffer.h:18 | keeps the pending bytes and leaves a whole buffer free if less than one buffer was pending |
| RecvSession.RecvBuffer.OnRead | DhNet_Server/ServerCore/RecvBuffer.h:19 | drops n pending bytes, or refuses |
| RecvSession.RecvBuffer.OnWrite | DhNet_Server/ServerCore/RecvBuffer.h:20 | appends the n bytes behind the cursor, or refuses |
| RecvSession.Session.TakePacket | DhNet_Server/ServerCore/Session.cpp:236-260 | one turn of the loop: consumes at least a header and continues the same drain; a failing OnRead is impossible |
| RecvSession.Session.ProcessRecv | DhNet_Server/ServerCore/Session.cpp:218-268 | the cursor loop delivers what the stream drain says, never overflows a posted receive, and leaves room for the next |
| SendPipeline.Session.RegisterSend | DhNet_Server/ServerCore/Session.cpp:150-195 | the batch posted is the whole queue in order; the state after acceptance or an error |
| SendPipeline.Session.Send | DhNet_Server/ServerCore/Session.cpp:43-54 | queues, and registers iff the flag was free |
| SendPipeline.Session.SendNext | DhNet_Server/ServerCore/Session.cpp:284-293 | posts the next batch or gives the flag back |
| SendPipeline.PipelineInvariant | DhNet_Server/ServerCore/Session.cpp:43-294 | in every run at most one send is outstanding, a non-empty queue means the flag is taken, and posted then queued packets are the packets sent, in order |
| SendPipeline.NoLossNoReorder | DhNet_Server/ServerCore/Session.cpp:43-294 | without failed sends, completed ++ in flight ++ queued equals the Send calls in order |
| SendPipeline.StuckIffEarlySend | DhNet_Server/ServerCore/Session.cpp:43-153 | a connected session has packets queued that nobody will post iff a packet was sent before it was connected |
| SendPipeline.EarlySendSticks | DhNet_Server/ServerCore/Session.cpp:43-153 | the shortest such run, with the stuck state it ends in |
| SendPipeline.PhaseExactly | DhNet_Server/ServerCore/Session.cpp:61-72 | in every run a session is connected iff it has been and was not closed since by request, by an empty completion or by a reset while posting |
| SendPipeline.StaysUp | DhNet_Server/ServerCore/Session.cpp:270-307 | a connected session stays connected as long as none of these is reported |
| SendPipeline.KeepsMoving | DhNet_Server/ServerCore/Session.cpp:270-294 | in such a run without an early send, queued packets always have a batch in flight or a completion at work ahead of them |
| SendPipeline.TwoCompletionsFlush | DhNet_Server/ServerCore/Session.cpp:270-294 | from every state of a connected session without an early send two completions get everything out and the flag back |
| Slots.SlotsConserved | DhNet_Server/DhNet_Server/Room.cpp:4-81 | free slots + members + outstanding reservations = capacity, in every interleaving of loads, compare-exchanges and job steps |
| Slots.SlotsInRange | DhNet_Server/DhNet_Server/Room.cpp:60-81 | the counter stays between 0 and the capacity, and so does membership |
| Slots.FullBranchUnreachable | DhNet_Server/DhNet_Server/Room.cpp:6-12 | an Enter at work always finds fewer members than the capacity |
| Slots.SizeCheckRedundant | DhNet_Server/DhNet_Server/Room.cpp:6-12 | with and without the size check every run is the same |
| Slots.EnterOwnsReservation | DhNet_Server/DhNet_Server/Lobby.cpp:6-25 | an Enter at work leaves a place for its player |
| Slots.RestHasNoLeak | DhNet_Server/DhNet_Server/Room.cpp:4-49 | at rest every slot is free or taken by a member: no path leaks a slot |
| Slots.EnterSteps | DhNet_Server/DhNet_Server/Room.cpp:4-37 | the atomic steps of Enter amount to its effect as a whole |
| Slots.LeaveSteps | DhNet_Server/DhNet_Server/Room.cpp:39-49 | the atomic steps of Leave amount to its effect as a whole |
| Slots.ReserveSteps | DhNet_Server/DhNet_Server/Room.cpp:60-76 | the load and the compare-exchange amount to taking one slot iff one is free |
| Slots.ReservationBecomesMember | DhNet_Server/DhNet_Server/Room.cpp:4-76 | from the reservation over the queued Enter to the membership: one slot less, this player more, all else as before |
| Slots.LastJobDecides | DhNet_Server/DhNet_Server/Room.cpp:4-49 | in a balanced place the jobs leave as members exactly those whose last job is an Enter and former members without a job; all other slots are free |
| Places.Room.TryReserveSlot | DhNet_Server/DhNet_Server/Room.cpp:60-76 | takes one slot iff one is free, however often the weak compare-exchange fails |
| Places.Room.Enter | DhNet_Server/DhNet_Server/Room.cpp:4-37 | members and slots after an entry that succeeds, is a duplicate, or lost its session |
| Places.Room.Leave | DhNet_Server/DhNet_Server/Room.cpp:39-49 | a member leaves and frees one slot; a stranger changes nothing |
| Places.Room.RunJob | DhNet_Server/DhNet_Server/Room.cpp:4-49 | every job keeps free + members + queued Enters = capacity |
| Places.RoomSystem.MakeRoom | DhNet_Server/DhNet_Server/RoomSystem.cpp:5-18 | a new room under the next index with one slot reserved; its assertion holds |
| Places.RoomSystem.GetNotFullRoom | DhNet_Server/DhNet_Server/RoomSystem.cpp:39-48 | reserves in the room of least index with a free slot; null iff all are full |
| Places.HandleReqRoomEnterPacket | DhNet_Server/DhNet_Server/RoomController.cpp:6-25 | leaves the lobby; the room of least index with a slot, or a new room iff all are full, gives one slot and gets one Enter queued behind its jobs; all other rooms are unchanged and all stay balanced |
| Places.Player.LeaveLobby | DhNet_Server/DhNet_Server/Player.cpp:96-104 | queues exactly one exit and forgets the lobby |
| Places.Player.LeaveRoom | DhNet_Server/DhNet_Server/Player.cpp:54-67 | queues exactly one leave and forgets the room |
| Places.Player.LeaveRoomAndReenterLobby | DhNet_Server/DhNet_Server/Player.cpp:69-76 | queues exactly one Leave in the room, which is otherwise unchanged; one slot of the fullest lobby not full goes to one queued Enter there, none iff all are full; room and lobbies stay balanced |
| Places.Lobby.Enter | DhNet_Server/DhNet_Server/Lobby.cpp:6-44 | effect on members and slots; the reply lists every member once in increasing id order, uncut, within the size limit for encryption |
| Places.Lobby.Exit | DhNet_Server/DhNet_Server/Lobby.cpp:46-57 | a member leaves and frees one slot; a stranger changes nothing |
| Places.Lobby.RunJob | DhNet_Server/DhNet_Server/Lobby.cpp:6-57 | in a balanced lobby a queued Enter finds room in the reply and every job keeps the balance |
| Places.LobbySystem.AssignLobby | DhNet_Server/DhNet_Server/LobbySystem.cpp:15-43 | whatever other threads do between the choice and the reservation: one slot of the lobby that was fullest, the earliest of several, if it still has one, otherwise of the first lobby that has one; null iff none has |
| Places.UndisturbedAssign | DhNet_Server/DhNet_Server/LobbySystem.cpp:15-43 | with nothing in between: one slot of the fullest lobby not full, the earliest of several; none iff all are full |
| LobbyPacket.ResLobbyEnter.AddPlayer | DhNet_Server/DhNet_Protocol/PacketList.h:253-260 | appends the player with a clipped name, or nothing if the packet is full |
| LobbyPacket.ClipExactly | DhNet_Server/DhNet_Protocol/PacketList.h:253-260 | the name kept is the longest beginning of at most 15 characters without a NUL |
| LobbyAssign.AssignedOwnsOneSlot | DhNet_Server/DhNet_Server/LobbySystem.cpp:15-43 | with any number of concurrent calls, a lobby returned comes with a reservation there and nowhere else; null means every lobby was seen without a slot |
| LobbyAssign.LobbiesConserved | DhNet_Server/DhNet_Server/Lobby.cpp:75-90 | every lobby stays balanced under concurrent assignment |
| LobbyAssign.AloneGetsFullest | DhNet_Server/DhNet_Server/LobbySystem.cpp:15-33 | in every run a call that nothing interferes with takes one slot of the fullest lobby not full and changes nothing else |
| LobbyAssign.ReserveTwice | DhNet_Server/DhNet_Server/LobbySystem.cpp:32-40 | undisturbed, a call takes a slot of the lobby it is at, preferred or met in the fallback scan |
| AesGcm.UnpackPack | DhNet_Server/DhNet_Server/AesGcm.h:13-54 | taking a payload apart undoes putting it together, for every key, nonce and text |
| AesGcm.Encrypt | DhNet_Server/DhNet_Server/AesGcm.h:13-30 | the buffer holds nonce, ciphertext and tag at their offsets |
| AesGcm.Decrypt | DhNet_Server/DhNet_Server/AesGcm.h:32-54 | succeeds iff the payload has 28 bytes and the cipher accepts its first 12, its middle and its last 16 as nonce, ciphertext and tag; the buffer then holds exactly that text |
| AesGcm.UnpackExactly | DhNet_Server/DhNet_Server/AesGcm.h:32-54 | no payload is taken apart to anything but the text the cipher vouches for |
| Sessions.UnsealSealed | DhNet_Server/DhNet_Server/GameSession.cpp:51-153 | every inner packet of 1 to 1280 bytes passes the size checks of the other side and is recovered exactly |
| Sessions.UnsealedExactly | DhNet_Server/DhNet_Server/GameSession.cpp:51-71 | after the handshake exactly the encrypted packets of 28 to 1308 bytes of payload that the cipher vouches for are opened, and to that text |
| Sessions.KeyPacketLayout | DhNet_Server/DhNet_Server/GameSession.cpp:85-131 | a key packet on the wire, byte by byte |
| Sessions.OpenedFits | DhNet_Server/DhNet_Server/GameSession.cpp:57-71 | every payload that passes the size checks opens to a text that fits the 1280-byte buffer |
| Sessions.GameSession.OnRecv | DhNet_Server/DhNet_Server/GameSession.cpp:38-131 | state, reply, inner packet and result for every packet: before the handshake only a key request with working key generation and agreement keeps the session; after it a packet the cipher refuses closes the session and hands nothing on |
| Sessions.GameSession.Send | DhNet_Server/DhNet_Server/GameSession.cpp:77-83 | plain before the flag, sealed after it |
| Sessions.ServerSession.OnConnected | DhNet_Client/DhNet_Client/ServerSession.cpp:4-25 | the key request goes out and the private key is kept, or the session closes |
| Sessions.ServerSession.OnRecv | DhNet_Client/DhNet_Client/ServerSession.cpp:27-99 | state, login, inner packet and result for every packet: before the handshake only the key answer with a working key agreement keeps the session; after it a packet the cipher refuses closes the session and hands nothing on |
| Handshake.HandshakeInvariant | DhNet_Server/DhNet_Server/GameSession.cpp:38-153 | the joint state of both sides and both channels in every polite run |
| Handshake.NoViolation | DhNet_Server/DhNet_Server/GameSession.cpp:38-71 | no polite run takes a violation branch on either side |
| Handshake.PoliteIffNeverBreaks | DhNet_Server/DhNet_Server/GameSession.cpp:38-83 | for runs of application packets: no continuation by reads, answers and connecting takes a violation branch iff every packet waited for its side's handshake |
| Handshake.KeysAgree | DhNet_Server/DhNet_Server/GameSession.cpp:85-131 | once the client is done so is the server, with the same key |
| Handshake.OnePlainPacketEach | DhNet_Client/DhNet_Client/ServerSession.cpp:57-121 | exactly the first packet of each direction is plain |
| Handshake.DeliveredExactly | DhNet_Client/DhNet_Client/ServerSession.cpp:39-121 | what is handed on is a prefix of what was sent, all of it once the channel is empty |
| Handshake.RepliesArePolite | DhNet_Server/DhNet_Server/GameSession.cpp:128-130 | a server that has handed on a request has its answer out |
| Handshake.HandshakeCompletes | DhNet_Server/DhNet_Server/GameSession.cpp:85-131 | from every polite run four steps finish the handshake with the same key on both sides |
| Handshake.ReadsGoOn | DhNet_Server/DhNet_Server/GameSession.cpp:38-75 | in polite runs a side that has a packet to read takes it |
| Handshake.EarlyPacketDropsSession | DhNet_Server/DhNet_Server/GameSession.cpp:40-55 | a client packet sent at any time before the client is done gets the session dropped once the server has read it |
| Handshake.EarlyServerPacketLosesClient | DhNet_Client/DhNet_Client/ServerSession.cpp:29-37 | a server packet that overtakes the answer makes the client reject the connection at its next read |
| DbWorkers.DbConnectionPool.Init | DhNet_Server/DhNet_Server/DbConnectionPool.cpp:4-52 | the connections that came up within three attempts, in order; ready iff there is one |
| DbWorkers.EstablishedExactly | DhNet_Server/DhNet_Server/DbConnectionPool.cpp:4-52 | the pool gets exactly the connections that came up, each once, in order |
| DbWorkers.DbConnectionPool.Acquire | DhNet_Server/DhNet_Server/DbConnectionPool.cpp:65-76 | takes the oldest idle connection, none iff the pool is empty |
| DbWorkers.DbConnectionPool.Release | DhNet_Server/DhNet_Server/DbConnectionPool.cpp:78-84 | returns a connection to the end of the queue and ignores none |
| DbWorkers.DbSystem.WorkerThread | DhNet_Server/DhNet_Server/DbSystem.cpp:58-77 | whatever others submit and whenever they stop the system, a worker runs what was accepted in order, takes a task at every look that finds one, and leaves at the first look that finds the system stopped and nothing queued |
| DbWorkers.DrainedAtJoin | DhNet_Server/DhNet_Server/DbSystem.cpp:32-77 | with a worker, all tasks accepted and no others have been run when shutdown passes its joins |
| DbWorkers.DequeuedInOrder | DhNet_Server/DhNet_Server/DbSystem.cpp:64-74 | tasks leave the queue in the order of their acceptance |
| DbWorkers.NothingAcceptedAfterFlag | DhNet_Server/DhNet_Server/DbSystem.cpp:34-52 | no task is accepted once shutdown has begun |
| DbWorkers.DrainsIffWorkers | DhNet_Server/DhNet_Server/DbSystem.cpp:32-77 | no run loses an accepted task iff there is at least one worker |
| DbWorkers.ShutdownFinishes | DhNet_Server/DhNet_Server/DbSystem.cpp:32-77 | from every reachable state shutdown can be run to its end |
| DbWorkers.ConnectionsConserved | DhNet_Server/DhNet_Server/DbConnectionPool.cpp:65-84 | idle and borrowed connections are the established ones, each exactly once, in every run |
| DbWorkers.NeverExhaustedIff | DhNet_Server/DhNet_Server/DbConnectionPool.cpp:65-76 | over all runs Acquire never comes back empty iff there are at least as many connections as workers |
| DbWorkers.StartNeverExhausted | DhNet_Server/DhNet_Server/DbSystem.cpp:22-26 | every worker always finds a connection iff all connections came up, or none did |
| DbWorkers.StartAlwaysDrains | DhNet_Server/DhNet_Server/DbSystem.cpp:22-26 | every accepted task is run before shutdown ends iff some connection came up |
| Scenario.ScenarioState.AdvanceScenario | DhNet_Client/DhNet_StressTest/ScenarioHandlers.cpp:81-171 | the script step in place agrees with the step function, pings untouched |
| Scenario.ScenarioState.AdvancePing | DhNet_Client/DhNet_StressTest/ScenarioHandlers.cpp:224-254 | the ping step in place agrees with the step function, the script untouched |
| Scenario.BetweenReplies | DhNet_Client/DhNet_StressTest/ScenarioHandlers.cpp:81-171 | between two replies, for every configuration: at most 1 + retries requests, a timeout apart, the first after exactly the configured chats, and those an interval apart |
| Scenario.StuckIsFinal | DhNet_Client/DhNet_StressTest/ScenarioHandlers.cpp:115-169 | giving up comes after all retries, once, and nothing is done after it |
| Scenario.DueIsDone | DhNet_Client/DhNet_StressTest/ScenarioHandlers.cpp:81-171 | at every tick exactly what is due by the times of what has been done is done: a chat, a request, a retry, giving up, or nothing |
| Scenario.PingsAccounted | DhNet_Client/DhNet_StressTest/ScenarioHandlers.cpp:200-254 | pings sent = answered + timed out + in flight + dropped with their session, in every run of any number of sessions |
| Scenario.PingsWhenDue | DhNet_Client/DhNet_StressTest/ScenarioHandlers.cpp:224-254 | at every tick a ping is given up iff its timeout has passed and one is sent iff none is out and the interval has passed; pings are an interval apart |
| Scenario.ReplyIsRecorded | DhNet_Client/DhNet_StressTest/ScenarioHandlers.cpp:200-222 | a reply to a ping that is out is recorded once, any other not at all |
| Metrics.MetricsAggregator.GetSnapshotAndReset | DhNet_Client/DhNet_StressTest/MetricsAggregator.cpp:54-83 | the snapshot of the interval, and an empty aggregator |
| Metrics.SnapshotMean | DhNet_Client/DhNet_StressTest/MetricsAggregator.cpp:70-80 | average times sample count is the sum of the samples |
| Metrics.SnapshotOrder | DhNet_Client/DhNet_StressTest/MetricsAggregator.cpp:44-80 | the extremes are the least and greatest sample and the percentiles lie in order between them |
| Metrics.PercentileSplits | DhNet_Client/DhNet_StressTest/MetricsAggregator.cpp:44-51 | a percentile p of n samples is a sample that splits the sorted samples at the whole part of p * (n - 1) |
| Metrics.SnapshotPercentiles | DhNet_Client/DhNet_StressTest/MetricsAggregator.cpp:77-79 | the three percentiles of a snapshot are the sorted samples at 50, 95 and 99 hundredths, in whole numbers |
| Metrics.ReportManager.WriteFinalReport | DhNet_Client/DhNet_StressTest/ReportManager.cpp:60-106 | the totals over the whole history, the last interval included |
| Metrics.FinalCountsExact | DhNet_Client/DhNet_StressTest/ReportManager.cpp:85-106 | however the run is cut into intervals the totals count every event once |
| Metrics.FinalAverageExact | DhNet_Client/DhNet_StressTest/ReportManager.cpp:102-106 | the weighted average of the interval averages is the mean of all round trips |
| Hex.BytesToHex | DhNet_Server/DhNet_Server/CryptoUtil.cpp:70-80 | fills the text with the Base16 encoding |
| Hex.HexToBytes | DhNet_Server/DhNet_Server/CryptoUtil.cpp:82-102 | decodes, or fails |
| Hex.DecodeEncode | DhNet_Server/DhNet_Server/CryptoUtil.cpp:70-102 | decoding undoes encoding for every byte string |
| Hex.EncodeDecode | DhNet_Server/DhNet_Server/CryptoUtil.cpp:70-102 | encoding what was decoded gives the text in lower case |
| Hex.AcceptsExactly | DhNet_Server/DhNet_Server/CryptoUtil.cpp:84-98 | accepted are exactly the even-length strings of hex digits |

## Assumptions

- Key agreement commutes and authenticated decryption undoes encryption (`AesGcm.Lawful`, after
  section 7 of NIST SP 800-38D); `AesGcm.LawsConsistent` shows the laws can be met. Nothing is claimed
  about secrecy. Encryption does not fail.
- The code reads 65 bytes of public key whatever size a key exchange packet declares; the model reads
  them only as far as the packet goes.
- A send completion reports 0 bytes or the whole batch; a receive completion fits the posted buffer
  unless the model says otherwise.
- In `Handshake` the wire carries whole packets in order, and the client's login is its first
  application packet. Key generation does not fail and the packet handler accepts every inner packet.
- The read-write lock is analysed for at most 65535 simultaneous read and write holds.
- Time, randomness, operating-system results and spurious compare-exchange failures are parameters.

## Left out

- Winsock, completion ports, listener and service start-up: completions are steps of the environment.
- OpenSSL, MySQL, PBKDF2 and account look-up: foreign libraries.
- `PushGlobalQueue`, job bodies that throw, and `ClearJobs`, which nothing calls.
- The 10-second lock timeout, which ends the process.
- That a player is in at most one room, or in no room after a disconnect: the code does not guarantee it.
- Non-negative round-trip times: the reply handler reads the clock before it takes the registry lock.
- OnLoginResult, PlayerSystem, GameSessionSystem, id generation, chat and broadcasts.
- The admin service, the web gateway, the logger, settings and file output.
- RwLock.LockInvariant: the lock and the job queue are modelled on values, one step per atomic access, since what matters in them is the interleaving.
- Places.LobbySystem.AssignLobby: interference comes at one point, between choice and reservation; interference at every atomic access is in `LobbyAssign`.
- Metrics.FinalAverageExact: arithmetic is over reals, without rounding.
