# Verification of the socket library's core

Dafny models of the parts of the library that keep invariants: the fixed-size node allocator, the NT service
logic (event-log sources, options, status reports), the concurrent send-buffer pool, and the arithmetic and
ledger code around them.  Each model takes its source's branches, constants and error paths; what the
operating system answers is a parameter.  `dafny verify dfyconfig.toml` checks everything.

- **Node pool** (`AddressSpace`, `NodeLayout`, `PoolModel`, `NodePool`).  `NodePool.Pool` works in place on a map of
  mapped byte addresses: link words are stored as bytes between the clients' buffers.  `Valid` ties the bytes to
  the abstract pool of `PoolModel`, a stack of free nodes, a set of live ones and a chain of blocks.
- **Event-log sources** (`MultiString`, `EventLogSources`).  The copy loops on character buffers, proved against what
  a reader of the packed value sees.  A match in the deregister loop advances the destination by one character, so
  an empty string is left where the entry was: the code removes the name, and only the name, exactly when nothing but
  the name follows its first occurrence (`MultiString.DeregisterIsRemovalIff`); what stays behind that empty string can
  return with the next registration (`MultiString.RegisterCanResurrect`), even as a duplicate of the new name, and is
  not restored by taking the name out again.  `MultiString.RegisterKeepsDistinctIff` and
  `MultiString.RegisterThenDeregister` say exactly when all is well.
- **Options** (`ServiceOptions`).  The argument loop against a reader of option lists that is the inverse of rendering
  them.  A -l or -p without a value at the end of the line takes the null pointer behind the arguments for one, and the
  loop then runs past it: an outcome of its own, under its exact condition.
- **Status reports** (`ServiceStatus`).  `Run` and the control handlers are arbitrary sequences of reports and controls;
  the log says which reports reached the service control manager, and `calls` which member functions were called.
- **Send pool** (`SendPoolMachine`, `SendPoolProofs`, `SendPoolProgress`, `SendPoolQueue`, `SendPoolEffects`,
  `SendPoolBuffers`, `SendPool`).  Any number of threads with program counters, a lock, the list and the heap; freed addresses may be
  handed out again.  Testing the list, reading its front and changing it are separate steps, and it is the lock that
  makes them one (`SendPoolProofs.SeenKept`).  The class `CSocketSendPool` has the source's fields and bodies and shows
  that an undisturbed call is a run of the machine.  A client may overwrite `szBuffer`, as TcpServer.cpp:512-515 does
  with objects it later pushes: then the promise that a popped object has its own buffer holds for all later runs
  exactly under the condition of `SendPoolBuffers.OwnBuffersIff`, and a client keeps it exactly by the rule of
  `SendPoolBuffers.RedirectIsHarmlessIff`.
- **Companions** (`RandomScale`, `Euclid`, `ThreadGroup`, `BlockTcpClient`).

The header comment of RandomReal promises a result strictly below `high` (util/Random.h:50-52); for equal bounds the code
returns that bound, and the model follows the code.

## Model

| member | source | states |
|---|---|---|
| NodeLayout.NodesInARow | src/SocketLibrary/SocketLibrary/SLNormalMemoryPool.h:17-26 | the nodes follow the block's link word one stride apart, in rising order of their indices |
| NodeLayout.NodesApart | src/SocketLibrary/SocketLibrary/SLNormalMemoryPool.h:17-26 | distinct nodes of non-overlapping blocks do not overlap, whichever blocks they are in |
| NodeLayout.NodeHeaderApart | src/SocketLibrary/SocketLibrary/SLNormalMemoryPool.h:17-26 | no node overlaps the link word of any block |
| NodeLayout.BlockFits | src/SocketLibrary/SocketLibrary/SLNormalMemoryPool.h:14-26 | a block fits MEMORY_BLOCK_SIZE exactly when the nodes' padding fits into the remainder of the node-count division; always when NODE_SIZE is a multiple of the word; one more node never fits |
| NodeLayout.CompiledLayout | src/SocketLibrary/SocketLibrary/SLNormalMemoryPool.h:14-26 | the compiler's layout: as many nodes as link and buffer fit behind the block's link, each of the fewest bytes that hold both and keep the next link aligned, the block being its link and its nodes |
| NodeLayout.CompiledIsValid | src/SocketLibrary/SocketLibrary/SLNormalMemoryPool.h:14-26 | the layout the compiler gives any valid template is one the pool's proofs need: at least one node, and room for link and buffer in each |
| NodeLayout.BlockCanOutgrowItsSize | src/SocketLibrary/SocketLibrary/SLNormalMemoryPool.h:14-26 | a NODE_SIZE for which sizeof(MemBlock) exceeds MEMORY_BLOCK_SIZE |
| AddressSpace.LoadStore | src/SocketLibrary/SocketLibrary/SLNormalMemoryPool.h:84-91 | a pointer word written byte by byte is read back |
| PoolModel.TakeKeepsPartition | src/SocketLibrary/SocketLibrary/SLNormalMemoryPool.h:76-93 | serving a node keeps free and live nodes a partition of all nodes, duplicate-free; so no live node is served and none is lost |
| PoolModel.GiveKeepsPartition | src/SocketLibrary/SocketLibrary/SLNormalMemoryPool.h:94-100 | giving a live node back keeps the partition |
| PoolModel.GiveThenTake | src/SocketLibrary/SocketLibrary/SLNormalMemoryPool.h:76-100 | last in, first out: a request after a release gets that very node and leaves the very same pool |
| PoolModel.FreshBlockAscends | src/SocketLibrary/SocketLibrary/SLNormalMemoryPool.h:80-92 | a new block's nodes are served at rising addresses, one stride apart from the one behind the block's link, the unserved ones staying stacked in order |
| PoolModel.EveryRun | src/SocketLibrary/SocketLibrary/SLNormalMemoryPool.h:76-100 | after any legal run from the empty pool: the partition holds and there are exactly ceil(peak live / BLOCK_NODE_COUNT) blocks |
| NodePool.LiveBuffersAreApart | src/SocketLibrary/SocketLibrary/SLNormalMemoryPool.h:17-26 | in a valid pool no two live buffers overlap, each lies inside one block, and none touches a link word of a node or block |
| NodePool.Pool.ThreadNodes | src/SocketLibrary/SocketLibrary/SLNormalMemoryPool.h:83-85 | the fill loop leaves the new block's nodes chained in ascending order to null and touches nothing outside the block |
| NodePool.Pool.Grow | src/SocketLibrary/SocketLibrary/SLNormalMemoryPool.h:80-89 | the grow branch adds exactly the new block's nodes to the stack and the block to the chain; no byte mapped before changes |
| NodePool.Pool.Allocate | src/SocketLibrary/SocketLibrary/SLNormalMemoryPool.h:76-93 | oversize requests return null and change nothing; from an empty free list the pointer is the first node's buffer, two words into the new block, which heads the blocks, with the second node next; otherwise it is the buffer of the free list's head, which was not live; memory already mapped is untouched |
| NodePool.Pool.Deallocate | src/SocketLibrary/SocketLibrary/SLNormalMemoryPool.h:94-100 | the node one word before the user pointer heads the free list, its link word holds the old head, nothing else is written and every live buffer keeps its bytes |
| NodePool.Pool.ClientWrite | src/SocketLibrary/SocketLibrary/SLNormalMemoryPool.h:17-26 | any byte stored at any offset of a live buffer leaves free list, block chain and all other live buffers as they were |
| NodePool.Pool.OwnsWhatPeakNeeds | src/SocketLibrary/SocketLibrary/SLNormalMemoryPool.h:80-89 | at any time the pool on real bytes owns exactly ceil(peak / BLOCK_NODE_COUNT) blocks |
| NodePool.Pool.Clear | src/SocketLibrary/SocketLibrary/SLNormalMemoryPool.h:56-74 | clear terminates, releases every block exactly once and unmaps nothing else; the untouched free-list header then dangles unless it was null, and what is left is a pool again exactly in that case |
| MultiString.DecodeEncode | src/SocketLibrary/SocketLibrary/NTService.cpp:1021-1025 | reading a packed multi-string gives the list back, whatever follows its closing string |
| MultiString.RegisterEncoded | src/SocketLibrary/SocketLibrary/NTService.cpp:1005-1046 | registering on a packed list stores exactly the packing of the list with the name appended |
| MultiString.RegisteredSplit | src/SocketLibrary/SocketLibrary/NTService.cpp:1005-1046 | every byte of the stored value: the entries as they were, the name and its NUL, what the old value has behind that place, and NULs up to the larger size |
| MultiString.RegisterAppendsIff | src/SocketLibrary/SocketLibrary/NTService.cpp:1005-1046 | on any value whose entries all have their NULs the list read back grows by just the name exactly when the name is not empty and the old value ends, or has a NUL, where the inserted name will end |
| MultiString.RegisteredClosedIff | src/SocketLibrary/SocketLibrary/NTService.cpp:1005-1046 | the stored value's entries have their NULs again; it has a closing string exactly when the old value had one or the name is empty |
| MultiString.RegisteredIsListed | src/SocketLibrary/SocketLibrary/NTService.cpp:1021-1046 | after registering, the name is listed, so a second call writes nothing, and what is read begins with the entries there were and the name |
| MultiString.RegisterKeepsDistinctIff | src/SocketLibrary/SocketLibrary/NTService.cpp:1021-1046 | a new name leaves the list read back free of duplicates exactly when what the old value reads as behind the place of the name has none, neither among itself nor with the listed names; so it does if the value closes there |
| MultiString.RegisterCanDuplicate | src/SocketLibrary/SocketLibrary/NTService.cpp:1021-1131 | deregistering the first of two sources and registering a name of which the other was the double leaves that name listed twice |
| MultiString.DeregisteredBytes | src/SocketLibrary/SocketLibrary/NTService.cpp:1102-1131 | every byte of the stored value: each entry with its NUL, an empty string for each listing of the name, then NULs; shorter than the old value by the name and a NUL for each listing |
| MultiString.DeregisterKeepsBefore | src/SocketLibrary/SocketLibrary/NTService.cpp:1106-1131 | the value stored by deregistering reads as exactly the entries before the first occurrence of the name |
| MultiString.DeregisterIsRemovalIff | src/SocketLibrary/SocketLibrary/NTService.cpp:1106-1131 | it equals removing the name, both as the list read back and byte for byte, exactly when only the name follows its first occurrence |
| MultiString.RegisterThenDeregister | src/SocketLibrary/SocketLibrary/NTService.cpp:1005-1131 | on any closed value, registering an absent non-empty name and deregistering it restores the value byte for byte, size included, exactly when only NULs stand behind the closing string, as on every packed list |
| MultiString.ResidueIsNotRestored | src/SocketLibrary/SocketLibrary/NTService.cpp:1005-1131 | a value with another source left behind its closing string is not restored |
| MultiString.DeregisterLeavesResidue | src/SocketLibrary/SocketLibrary/NTService.cpp:1110-1130 | deregistering the first of two sources leaves the other behind an empty string |
| MultiString.RegisterCanResurrect | src/SocketLibrary/SocketLibrary/NTService.cpp:1021-1045 | registering a shorter name over such a residue brings its tail back as an entry |
| EventLogSources.RegisterApplicationLog | src/SocketLibrary/SocketLibrary/NTService.cpp:1002-1047 | for every stored value: nothing is written if the query fails or the name is listed; otherwise the in-place edit stays in bounds and stores the specified value exactly when each entry has its NUL, and runs past the buffer when the last one has none |
| EventLogSources.TurnStep | src/SocketLibrary/SocketLibrary/NTService.cpp:1106-1118 | a turn of the copy loop keeps the destination offset at or before the source offset, and the size short by exactly the matches so far |
| EventLogSources.CopyOthers | src/SocketLibrary/SocketLibrary/NTService.cpp:1106-1119 | the copy loop stays in its buffers exactly on values with a closing string; the destination then holds the blanked entries and zeros, and the size has lost exactly the matches |
| EventLogSources.DeregisterApplicationLog | src/SocketLibrary/SocketLibrary/NTService.cpp:1089-1136 | for every stored value: the loop runs past the buffer exactly when there is no closing string; otherwise the specified value is stored if the name is listed and nothing if not, nor if the query fails |
| ServiceOptions.Spelling | src/SocketLibrary/SocketLibrary/NTService.cpp:163-187 | the letter of each option: -i, -u, -s, -e, -l, -p, -d and -f, and where a value stands |
| ServiceOptions.TokensRender | src/SocketLibrary/SocketLibrary/NTService.cpp:160-192 | parsing the arguments rendered from any option list yields that list; a consumed value is never read as an option and a debug option stops the parser |
| ServiceOptions.TokensComplete | src/SocketLibrary/SocketLibrary/NTService.cpp:160-192 | every command line is the rendering of the options read from it plus what was not read |
| ServiceOptions.BareIff | src/SocketLibrary/SocketLibrary/NTService.cpp:144-172 | the reader finds a value option without a value exactly on lines ending in a bare -l or -p that is not itself a value and not behind a debug option |
| ServiceOptions.CNTService.ReadArguments | src/SocketLibrary/SocketLibrary/NTService.cpp:160-192 | for every argument vector: the argument loop runs past its arguments exactly if there are none or the line ends in such a bare option; otherwise the last action and last values stick and a debug option stops it |
| ServiceOptions.LastActionIs | src/SocketLibrary/SocketLibrary/NTService.cpp:163-178 | the last flag decides the action; without a flag the service is dispatched |
| ServiceOptions.LastValueIs | src/SocketLibrary/SocketLibrary/NTService.cpp:167-172 | the value given last for a field sticks |
| ServiceOptions.CNTService.RegisterService | src/SocketLibrary/SocketLibrary/NTService.cpp:147-224 | for every argument vector a run past the arguments exactly under that condition; otherwise each field has the value given last or keeps its own, a debug option is all that is called, the last flag decides what is called without one, an installation is followed by the start or on Windows 95 by the faceless service, and no flag dispatches the service or, there, runs it faceless |
| ServiceOptions.WhatIsCalled | src/SocketLibrary/SocketLibrary/NTService.cpp:197-223 | for each of install, start, dispatch and the debug service: the exact options under which it is called; install comes first and one call follows it |
| ServiceStatus.CheckpointsCount | src/SocketLibrary/SocketLibrary/NTService.cpp:842-850 | before the 32-bit wrap the checkpoints other than 0 are exactly 1, 2, 3, ... over the whole run |
| ServiceStatus.ZeroMeansSettledIff | src/SocketLibrary/SocketLibrary/NTService.cpp:842-850 | checkpoint 0 means RUNNING or STOPPED exactly as long as fewer than 2^32 other reports were made |
| ServiceStatus.CNTService.ReportStatus | src/SocketLibrary/SocketLibrary/NTService.cpp:819-860 | outside debug mode each report appends one status with the given state, wait hint and exit codes, controls withheld while starting; RUNNING and STOPPED carry checkpoint 0 and leave the counter alone, every other state carries the next value of the 32-bit counter; in debug mode nothing changes |
| ServiceStatus.MadeInOrder | src/SocketLibrary/SocketLibrary/NTService.cpp:760-797 | what each event is reported as: a report of Run itself as it is, a control with a handler as that handler's reports, an interrogation as the current state with the default wait hint, an unknown code as nothing |
| ServiceStatus.StateInOrder | src/SocketLibrary/SocketLibrary/NTService.cpp:760-797 | the current state each event leaves: that of its last report, else the pending state a stop, pause or continue sets |
| ServiceStatus.MadeConcat | src/SocketLibrary/SocketLibrary/NTService.cpp:760-797 | the reports of events in a row are those of the first events followed by those of the others from the state they leave |
| ServiceStatus.CNTService.ServiceCtrl | src/SocketLibrary/SocketLibrary/NTService.cpp:760-797 | each code calls its handler and no other; a handler's reports are logged in order with their states, wait hints and exit codes; interrogation repeats the current state with the default wait hint and the next checkpoint; pending states set by the other controls are not reported by themselves; unknown codes do nothing |
| ServiceStatus.CNTService.Run | src/SocketLibrary/SocketLibrary/NTService.cpp:736-757 | any Run: exactly the reports of its events are logged, in order, and exactly the handlers of its controls are called |
| ServiceStatus.CNTService.ServiceMain | src/SocketLibrary/SocketLibrary/NTService.cpp:736-757 | with a registered handle the reports are START_PENDING, those of Run if the first was accepted, and STOPPED; Run is called exactly if the handle is registered and the first report accepted |
| SendPoolProofs.SeenKept | src/SocketLibrary/SocketLibrary/SocketSendPool.h:43-105 | whatever the other threads do, what a thread has seen of the list stays so until it acts on it: a list seen non-empty is, the front read is still the front, the room found is still there, the iterator is where the loop's test found it |
| SendPoolProofs.StepKeepsInv | src/SocketLibrary/SocketLibrary/SocketSendPool.h:21-105 | every step of every thread, one call on the list, the lock or the heap each, keeps lock discipline, what threads have seen, ownership, heap balance, bound and release count |
| SendPoolProofs.EveryRunKeepsInv | src/SocketLibrary/SocketLibrary/SocketSendPool.h:21-105 | so does every interleaving |
| SendPoolProofs.MutualExclusion | src/SocketLibrary/SocketLibrary/SocketSendPool.h:43-105 | at most one thread is in a critical section |
| SendPoolProofs.ReleasedOnce | src/SocketLibrary/SocketLibrary/SocketSendPool.h:43-105 | every operation that ends has released the lock exactly once, on each of its paths |
| SendPoolProofs.NeverStuck | src/SocketLibrary/SocketLibrary/SocketSendPool.h:21-105 | no reachable step reads or removes the front of an empty list or uses or frees a block that is not allocated, so nothing is freed twice, and each can be taken with every answer the heap may give |
| SendPoolProofs.NoDeadlock | src/SocketLibrary/SocketLibrary/SocketSendPool.h:21-105 | whenever an operation is under way some thread can take a step of its operation |
| SendPoolProgress.StepAdvances | src/SocketLibrary/SocketLibrary/SocketSendPool.h:21-105 | whatever the heap answers, each step of a thread strictly lowers a measure of what is left of its operation: at most six for pop, four for push, and for clear two for each object still pooled and four more |
| SendPoolProgress.Settle | src/SocketLibrary/SocketLibrary/SocketSendPool.h:21-105 | from every reachable state some run ends all operations under way without beginning one, and leaves clients' objects as they are |
| SendPoolProofs.Ledger | src/SocketLibrary/SocketLibrary/SocketSendPool.h:21-105 | allocations minus frees equals pooled plus held plus with clients plus lost to failed reallocations, the four being disjoint; the list never exceeds its bound |
| SendPoolProofs.OneOwner | src/SocketLibrary/SocketLibrary/SocketSendPool.h:43-105 | an object in hands is in those of exactly one thread, and neither pooled, with a client nor lost |
| SendPoolQueue.StepRefines | src/SocketLibrary/SocketLibrary/SocketSendPool.h:43-105 | each step is a step of an atomic bounded FIFO queue or leaves it alone, although testing, reading and changing the list are separate steps |
| SendPoolQueue.Fifo | src/SocketLibrary/SocketLibrary/SocketSendPool.h:43-105 | in any history the atomic queue allows, what was pushed is what was popped followed by what is queued |
| SendPoolQueue.EveryRunIsFifo | src/SocketLibrary/SocketLibrary/SocketSendPool.h:39-105 | in every interleaving the recorded queue operations are those of one atomic queue with their outcomes, and pooled objects are reused in push order |
| SendPoolEffects.EffectOnce | src/SocketLibrary/SocketLibrary/SocketSendPool.h:39-105 | in every interleaving an operation that ends has recorded exactly one queue operation since it began, the one it was called for: a pop returns the object dequeued, unless too short, and a new one if there was none; a push kept or freed the object it was given |
| SendPoolBuffers.PopReturns | src/SocketLibrary/SocketLibrary/SocketSendPool.h:50-90 | a returned object is the client's and at least as long as asked; long enough ones come back as they are; a made or grown one has the length asked for, the size of header and length in 32 bits, and its own buffer, or none for no length; it has room exactly if header and request fit 32 bits |
| SendPoolBuffers.RunKeepsNoBuffer | src/SocketLibrary/SocketLibrary/SocketSendPool.h:50-90 | over every run in which no client stores an address, objects without a length have the null buffer |
| SendPoolBuffers.OwnBuffersIff | src/SocketLibrary/SocketLibrary/SocketSendPool.h:39-105 | with no operation under way: every pop of every later run with fitting requests and no address stored by clients returns an object with its own buffer exactly when now each object that is pooled or a client's and has a length has one |
| SendPoolBuffers.RedirectIsHarmlessIff | src/SocketLibrary/SocketLibrary/SocketSendPool.h:50-66 | at any moment of any interleaving: a client that stores an address in an object it holds leaves that promise intact exactly when the object has no length or the address is that of its own buffer |
| SendPoolBuffers.PopAfterHarmlessRun | src/SocketLibrary/SocketLibrary/SocketSendPool.h:39-105 | after any run in which requests fit and foreign addresses are stored only in objects without a length, a pop with a positive request returns an object with its own, long enough buffer |
| SendPoolBuffers.ForeignBufferComesBack | src/SocketLibrary/SocketLibrary/SocketSendPool.h:39-105 | otherwise the very address comes back with a pop of no more than the object's length, whatever is in the list and whatever other threads do outside the lock |
| SendPool.CSocketSendPool.Pop | src/SocketLibrary/SocketLibrary/SocketSendPool.h:39-91 | the body of pop, undisturbed, is that run of the machine; the front leaves the list and is returned as it is if long enough, otherwise the heap's answer is, as an object of the length asked for with its own buffer, or none for no length, and the heap changes by just that block |
| SendPool.CSocketSendPool.Push | src/SocketLibrary/SocketLibrary/SocketSendPool.h:92-105 | the body of push is that run of the machine; it appends below the bound and frees the object otherwise |
| SendPool.CSocketSendPool.Clear | src/SocketLibrary/SocketLibrary/SocketSendPool.h:21-31 | the body of clear is that run of the machine and returns exactly the pooled objects to the heap |
| SendPool.CSocketSendPool.Init | src/SocketLibrary/SocketLibrary/SocketSendPool.h:32-38 | the body of init is that run of the machine; it clears the pool and sets the bound |
| SendPool.CSocketSendPool.constructor | src/SocketLibrary/SocketLibrary/SocketSendPool.h:13-16 | a new pool is empty, allocates nothing and has the default bound of 100 |
| RandomScale.EvenlySpread | src/SocketLibrary/SocketLibrary/util/Random.cpp:57-61 | each value of the range is produced by the floor or the ceiling of (RAND_MAX+1)/n of the rand() values |
| RandomScale.FavouredCount | src/SocketLibrary/SocketLibrary/util/Random.cpp:57-61 | exactly (RAND_MAX+1) mod n of the n values are produced by one more than the floor |
| RandomScale.ReachableIff | src/SocketLibrary/SocketLibrary/util/Random.cpp:57-61 | every value of the range can be drawn exactly when n <= RAND_MAX+1 |
| RandomScale.RandomInteger | src/SocketLibrary/SocketLibrary/util/Random.cpp:48-62 | the result lies between the bounds, in whichever order, and is the smaller one plus the fraction rand() / (RAND_MAX+1) of their span, rounded down |
| RandomScale.OrderOfBounds | src/SocketLibrary/SocketLibrary/util/Random.cpp:50-55 | swapping the bounds changes nothing |
| RandomScale.RandomReal | src/SocketLibrary/SocketLibrary/util/Random.cpp:74-86 | the result is the smaller bound plus that fraction of the distance to the larger one; never below the smaller, and below the larger exactly when the bounds differ |
| RandomScale.ChanceCount | src/SocketLibrary/SocketLibrary/util/Random.cpp:94-97 | RandomChance(p) is true for exactly ceil(p * (RAND_MAX+1)) of the rand() values, none for p <= 0, all for p >= 1 |
| RandomScale.RandomChance | src/SocketLibrary/SocketLibrary/util/Random.cpp:94-97 | the method answers true exactly if rand() is below p * (RAND_MAX+1) |
| Euclid.GcdLoop | src/SocketLibrary/SocketLibrary/util/utility.h:14-25 | the loop returns the greatest common divisor, which every common divisor divides |
| Euclid.Lame | src/SocketLibrary/SocketLibrary/util/utility.h:14-25 | k rounds with A > B need B >= Fib(k+1) and A >= Fib(k+2) |
| Euclid.LameIsTight | src/SocketLibrary/SocketLibrary/util/utility.h:14-25 | neighbouring Fibonacci numbers take exactly that many rounds |
| Euclid.SwappedCostsOne | src/SocketLibrary/SocketLibrary/util/utility.h:8-25 | operands in the wrong order cost exactly one more round |
| Euclid.Bezout | src/SocketLibrary/SocketLibrary/util/utility.h:14-25 | the result is an integer combination of the operands |
| Euclid.Lcm | src/SocketLibrary/SocketLibrary/util/utility.h:33-40 | the division by the gcd is exact, gcd * lcm = A * B, the result is the least positive common multiple and divides all others, and the intermediate value exceeds neither A nor the result |
| ThreadGroup.CThreadGroup.Clear | src/SocketLibrary/SocketLibrary/sync/ThreadGroup.cpp:110-123 | each open handle is closed once, oldest first, and handles open plus handles closed stay all handles created |
| ThreadGroup.CThreadGroup.StartWith | src/SocketLibrary/SocketLibrary/sync/ThreadGroup.cpp:38-62 | old handles are closed, new ones are created in order up to the first failure, each for the given routine and parameter, which are kept only on success |
| ThreadGroup.CThreadGroup.Start | src/SocketLibrary/SocketLibrary/sync/ThreadGroup.cpp:64-84 | the same with the routine and parameter kept from before |
| ThreadGroup.CThreadGroup.AddThread | src/SocketLibrary/SocketLibrary/sync/ThreadGroup.cpp:130-150 | the kept routine is started once for each attempt that succeeds, the handles following the old ones in order; the result is their number, all of count or none exactly when all attempts succeed or none does |
| ThreadGroup.SuccessesCount | src/SocketLibrary/SocketLibrary/sync/ThreadGroup.cpp:141-148 | that number: one more for each success, all or nothing exactly if all or none succeed |
| ThreadGroup.CThreadGroup.RemoveThread | src/SocketLibrary/SocketLibrary/sync/ThreadGroup.cpp:152-173 | exactly the newest min(n, count) handles are closed, newest first or, if those are all, oldest first; the oldest stay in order; the stop command is reset only if all go |
| ThreadGroup.Closed | src/SocketLibrary/SocketLibrary/sync/ThreadGroup.cpp:114-119 | closing any handle of the vector keeps every handle open or closed, and closed only once |
| BlockTcpClient.CSLBlockTcpClient.Send | src/SocketLibrary/SocketLibrary/SLBlockTcpClient.cpp:81-94 | over any partial sends the peer has accepted exactly a prefix of the data whose length is returned, all of it unless a call failed; every call is made while something is still missing |
| BlockTcpClient.CSLBlockTcpClient.Recv | src/SocketLibrary/SocketLibrary/SLBlockTcpClient.cpp:63-79 | the result counts the bytes taken off the stream and without error lies in [nRecvLen, nRecvLen + nLen); every call is made while something is still missing |

## Left out

- NodePool: `construct` and `destroy` (user constructors and destructors) and the unused `m_destroyChain`; the block allocator is taken to succeed with a region nobody has, since the source does not check its result.
- NodePool.Pool.Clear: is the end of the pool's life, as in the destructor; reuse after it is not modelled beyond the condition its contract states.
- EventLogSources: characters are one byte, so that byte sizes and character counts agree; registry access other than reading and writing the value, and the memory allocations, which are taken to succeed, are parameters or absent.
- EventLogSources: what is read or overwritten once a loop has run past its buffer.
- ServiceOptions: the UNICODE variant with its own argument list, the bodies of the actions called, and what the parser does after it has run past its arguments.
- ServiceStatus: a control arrives between two statements of Run, not inside ReportStatus; event logging of failed reports is absent.
- SendPoolMachine: the 32-bit target is fixed, with its header of 32 bytes and sizes modulo 2^32.
- SendPoolMachine: statements that touch only a thread's own object or its iterator are taken together with the call before them; `m_hProcessHeap` and the unused `m_nGrowCount` are absent.
- SendPool.CSocketSendPool.Init: is called while no other operation is under way, since the source sets `m_nMaxCount` outside the lock.
- SendPoolBuffers.OwnBuffersIff: is about states with no operation under way; objects in hands of a pop that will grow them, or of a push that will free them, would need an exception of their own.
- SendPool.CSocketSendPool.constructor: init's other two defaults, of which the source uses none.
- SendPoolMachine: objects' OVERLAPPED part and the buffers' bytes.
- RandomScale: Randomize and the sequence of rand() values; double rounding, which does not occur with a 15-bit rand().
- RandomScale.RandomInteger: requires that the span of the bounds is an int, as the source computes it in one.
- Euclid: operands are natural numbers of any size; overflow of the final product is not modelled.
- ThreadGroup: suspending, resuming, waiting and priorities; a handle stands for one creation, reuse of handle values by the system is not modelled.
- BlockTcpClient.CSLBlockTcpClient.Recv: the buffer's contents, because every call writes at its start; only the counts are modelled.
- BlockTcpClient: opening, closing, attaching and timeouts, which only pass a handle on.
- The TCP and UDP servers, clients, runners, sessions, tasks and message queues, the scope pool, block allocator and guards, and the console and service-manager calls of NTService.cpp.
