# BSPonMPI: a verified model of the superstep engine and of the BSPedupack kernels

BSPonMPI implements the BSPlib programming model on top of MPI. Processors log puts, gets, sends, registrations
and tag sizes in growing tables; `bspx_sync` exchanges the tables and carries everything out at the superstep
boundary. The BSPedupack kernels in `examples/` (a parallel FFT, LU decomposition, a sparse matrix times a vector)
are programs on top of it. This project models both and proves what they compute.

`dafny verify dfyconfig.toml` checks the whole project.

## How the model is organised

**The superstep engine** (`src/`). A delivery table is one array; each column begins with an index and holds six
linked lists threaded by relative offsets.

- `Columns`, `ColumnPush`, `Threads`: the layout of one column, and what a push does to its six lists.
- `ExpandableTables`, `DeliveryTables`, `Requests`, `MemoryRegisters`, `MessageQueues`: the tables as classes over
  arrays, proved against lists of records, requests, addresses and messages.
- `Delivery`, `DeliveryExecute`: the list walks of `deliveryTable_execute`, including the linking of all received
  sends into one queue.
- `BspObjects`: `BSPObject` and the calls on it; `Supersteps`: the abstract meaning of each call and of the boundary.
- `BspSync`, `Processes`, `CollectiveSync`, `BspxSync`: `bspx_sync` of all processors on their arrays, with the
  exchanges between the phases; `BspCalls`, `BspRuns`: whole programs on the arrays.
- `Protocol`, `Interleavings`: the same program as a transition system in which processors move one at a time;
  `Removals`, `RunProperties`, `RegisterRuns`, `RunCounts`, `RunMemory`, `RunOutcomes`: what follows for messages,
  registers, the byte count of the queue and memory over whole runs, in terms of the calls.
- `GlobalPieces`, `GlobalDrma`, `GlobalMemory`, `GlobalRoundTrip`: put and get on arrays that span all processors.
- `Avectors`, `SerializedRecords`, `SerializedDatasets`, `DatasetRuns`: the serialized dataset.

**The FFT** (`examples/bspedupack/bspfft.c`, `examples/mpiedupack/mpifft.c`): `Rings` and `ComplexNumbers` give exact
arithmetic, `FftMath` the Fourier transform and bit reversal, `FftStages` the butterfly stages, `FftKernels` and
`UnorderedFft` the sequential functions in place, `FftColumns` to `FftPhases` the step from one processor to many,
`Cycles` the sequence of cycles, `Distributions` to `BspRedistr` the redistribution by puts, `RedistrPackets` to
`MpiExchange` the same by `MPI_Alltoallv`, `BspFft` the parallel transform, `FftInverse` and `FftRoundTrip` its inverse.

**LU decomposition** (`examples/bspedupack/bsplu.c`): `Puts`, `Broadcast` and `BroadcastRun` hold the supersteps of puts
and the two-phase broadcast, `LuMath` the decomposition on whole matrices, `LuGrid` to `LuExchange` the parts of a
stage, `BspLu` the whole. The kernels put whole numbers; `EnginePuts` shows that these are puts of the engine.

**Sparse matrices** (`examples/bspedupack/bspmv.c`, `examples/bspedupack/bspmv_test.c`): `SparseMath`, `CountingSort` and
`SparseSums` for the sorting, `Icrs` and `IcrsProduct` for the storage scheme, `BspMvMath` and `BspMv` for the parallel
product, `SparseRun` for the three together.

Numbers are exact: `real`, pairs of reals for complex numbers, and an abstract commutative ring where the algebra is
all that matters. Functions with state are methods on arrays and on classes; each is proved against a function or a
predicate on sequences, and the properties are proved about that. A superstep of a kernel is one method that runs the
computation of every processor and then delivers the puts.

## Findings

Two properties that the code or its comments promise do not hold in general. Each is proved to fail on an input, and
the exact condition under which it holds is proved for all inputs.

- The start formula of `bspx_global_put` and `bspx_global_get` (`src/bsp_global_drma.c:101-102`, `129-130`) divides by the
  array size, while slices have a rounded-up size. Of 6 bytes on 4 processors, byte 3 lies in slice 1 but the loop begins
  with slice 2, at place -1 (`GlobalPieces.StartFormulaCanFail`). The pieces stay inside slices if and only if the range is
  empty or `offset * procs / array_size == offset / local_size` (`GlobalPieces.InsideSlicesIff`); this is so for every
  offset when the number of processors divides the array size (`GlobalPieces.DivisibleIsAligned`).
- `bspx_qsize` documents its second result as the sum of the payload sizes (`src/bspx.c:313-314`). The sync adds
  the tags as well (`src/bsp_delivtable.c:87`), and `bspx_hpmove` subtracts the payload only (`src/bspx.c:414`). The
  result is the sum of the payload sizes if and only if tags are empty or there are no messages
  (`MessageQueues.TagsAreCounted`; `MessageQueues.OneTagCounted` has the smallest example).

## Model

| member | source | states |
|---|---|---|
| ColumnPush.PushKeepsColumn | src/bsp_delivtable.h:221-257 | one push keeps the representation of a column: the index, the records end to end, and for each of the six types a list threaded in push order; the new record is the last of its list and no other list changes |
| ColumnPush.WalkYieldsList | src/bsp_delivtable.h:238-248 | following `next` from `start` for `count` records yields exactly the records of that type with their payloads, in push order |
| ColumnPush.EmptyColumnOk | src/bsp_delivtable.h:111-126 | a zeroed index stands for no records |
| Columns.UnpackPack | src/bsp_delivtable.h:250-256 | a payload stored in slots is read back unchanged, whatever the fill of its last slot |
| ExpandableTables.ArrayMax | src/bspx.c:119 | the result is in the list, or 0, and bounds every element |
| ExpandableTables.ExpandableTable.Expand | src/bsp_exptable.h:292-310 | more rows, and every column keeps its used contents |
| ExpandableTables.ExpandableTable.Push | src/bsp_exptable.h:292-310 | the element is appended to its column, growing all columns if need be, and no other column changes |
| ExpandableTables.ExpandableTable.ReserveFor | src/bspx.c:118-147 | there is room for the announced number of slots in every column |
| ExpandableTables.ExpandableTable.Receive | src/bsp_exptable.c:40-58 | every received column begins with exactly what its sender sent |
| DeliveryTables.Push | src/bsp_delivtable.h:221-257 | on the array, with expansion: the table stands for the logs with one record more in one column |
| DeliveryTables.PushedSize | src/bsp_delivtable.h:224-227 | a record takes two slots and one for every eight bytes of payload, rounded up |
| DeliveryTables.Reset | src/bsp_delivtable.h:111-126 | the table stands for empty logs |
| DeliveryTables.Initialize | src/bsp_delivtable.h:88-106 | a new table stands for empty logs |
| MemoryRegisters.MemoryRegister.Push | src/bsp_memreg.c:111-118 | one address more in one column; the marks stay, also across growth |
| MemoryRegisters.MemoryRegister.Pop | src/bsp_memreg.c:125-147 | marks exactly the most recent live row with the address, and fails exactly if there is none |
| MemoryRegisters.MemoryRegister.Pack | src/bsp_memreg.c:153-192 | every column keeps exactly its unmarked rows in order, and no marks are left |
| MemoryRegisters.MemoryRegister.Find | src/bsp_memreg.h:59-76 | the remote address in the most recent live row with the local address; fails exactly if there is none |
| MemoryRegisters.MemoryRegister.MemoizedFind | src/bsp_memreg.h:87-99 | on a packed register holding the address, terminates with the same answer as the full search |
| Registers.PackKeepsTranslations | src/bsp_memreg.c:153-192 | for every address and pair of processors the translation is the same before and after packing |
| Registers.KeepLastLive | src/bsp_memreg.c:168-176 | compaction maps the last live row of an address to the last row of the packed column that holds it |
| Registers.PopMarksFails | src/bsp_memreg.c:145 | once a removal finds no row, no later removal repairs it |
| Removals.RemovalsMark | src/bsp_memreg.c:125-147 | a list of removals succeeds if and only if no address is removed more often than it is registered, and then marks the last rows of every address, as many as it has removals |
| Removals.KeepIsKept | src/bsp_memreg.c:153-192 | packing leaves, in every column alike, the rows left when walking from the last row down and dropping one for every removal |
| Removals.OneDropped | src/bsp_memreg.c:125-192 | a single removal drops exactly the last row with its address |
| Removals.KeptRow | src/bsp_memreg.c:125-192 | after m removals of an address, the row with m later rows of that address is its last |
| Requests.RequestTable.Push | src/bsp_reqtable.h:98-103 | one request more in one column, and the running bound is the bound of the longer list |
| Requests.AnswersFit | src/bsp_reqtable.h:98-103 | the answers to any list of requests take no more slots than the bytes of the requester's running bound |
| Requests.AnswerAll | src/bsp_reqtable.c:38-57 | every request of every processor becomes a put of the bytes now in memory, behind what was logged, in order |
| MessageQueues.DecodeSend | src/bspx.c:298-307 | a message sent with a tag of the receiver's tag size is read back as tag and payload |
| MessageQueues.MessageQueue.Sync | src/bsp_mesgqueue.h:62-69 | the queue is empty and messages are received with the tag size that was in force for sending |
| MessageQueues.MessageQueue.HpMove | src/bspx.c:396-417 | -1 on an empty queue; otherwise the first message is removed, and its tag and payload are returned if the tag sizes agree |
| MessageQueues.MessageQueue.Drain | src/bspx.c:396-417 | moving until -1 yields every queued message once, in order |
| MessageQueues.MessageQueue.QSize | src/bspx.c:316-320 | the number of queued messages and the byte count; if that counts all queued bytes, it is the sum of the payload sizes with the tag size added for every message |
| MessageQueues.TagsAreCounted | src/bsp_delivtable.c:84-90 | the byte count exceeds the sum of payload sizes by the tag size per message; they agree if and only if tags are empty or there are no messages |
| MessageQueues.OneTagCounted | src/bspx.c:309-320 | a concrete queue on which the reported size is not the sum of the payload sizes |
| Delivery.LinkColumn | src/bsp_delivtable.c:76-90 | the sends of a column join the queue behind those of earlier columns; a column without sends leaves the chain unbroken |
| DeliveryExecute.FindHead | src/bsp_delivtable.c:113-123 | the head is the first send of the first column that has one |
| DeliveryExecute.ExecuteColumn | src/bsp_delivtable.c:52-90 | the puts of one sender are carried out in order, its registrations are appended and its sends are queued |
| DeliveryExecute.Execute | src/bsp_delivtable.c:40-124 | memory, register columns, removal marks, tag size and the message queue are those of all received records by sender and then in list order; it fails exactly if a removal finds no row |
| BspObjects.BspObject.Put | src/bspx.c:245-255 | logs a put of the source bytes as they are now, to the remote address registered with the local one |
| BspObjects.BspObject.Get | src/bspx.c:272-283 | logs a request for the remote address registered with the local one |
| BspObjects.BspObject.Send | src/bspx.c:298-307 | logs one record with the tag in front of the payload |
| BspObjects.BspObject.PushReg | src/bspx.c:210-218 | logs the address for every processor |
| BspObjects.BspObject.PopReg | src/bspx.c:225-231 | logs the removal for the own processor only; what it removes behind the boundary is in the rows of `RegisterRuns` |
| BspObjects.BspObject.SetTagSize | src/bspx.c:374-382 | logs the new size and returns the size in force; the size in force does not change |
| BspObjects.BspObject.HpMove | src/bspx.c:396-417 | the state is that of the call's meaning; -1 exactly on an empty queue |
| BspObjects.BspObject.QSize | src/bspx.c:316-320 | the number of messages that the state has queued, and the bytes that it counts |
| BspObjects.BspObject.SyncBegin | src/bspx.c:104-113 | clears what was received, and tells every processor exactly how many requests and slots it will get and whether this one asks anybody |
| BspObjects.BspObject.SyncReserve | src/bspx.c:118-152 | reserves for every sender the announced slots and the bound on the answers, and finds out whether anybody asks |
| BspObjects.BspObject.SyncAnswer | src/bspx.c:155-160 | the answers to what others asked join this processor's deliveries |
| BspObjects.BspObject.SyncDeliver | src/bspx.c:162-173 | from received columns that stand for what was shipped, the object reaches its abstract state behind the boundary; fails exactly if a removal finds no row |
| BspObjects.Initialize | src/bspx.c:40-73 | a new object stands for the empty state |
| Supersteps.ShippedMemory | src/bsp_delivtable.c:52-63 | carrying out all shipped puts, answers among them, is the abstract memory: for each sender in rank order its puts in call order and then its answers, which are what it held before |
| BspxSync.ColumnFitsRoom | src/bspx.c:141-147 | what a sender ships after answering fits the room its receiver reserved from the announcement and its own requests |
| BspxSync.SyncAll | src/bspx.c:97-173 | run by all processors on their arrays, from states that register equally often: every object ends in its abstract state behind the boundary, byte count of the queue included, if and only if every removal finds its row |
| BspRuns.Run | src/bspx.c:97-173 | a legal program, run superstep by superstep on the arrays of all processes, leaves each process in the state that the meaning of the program says |
| BspRuns.Start | src/bspx.c:40-73 | fresh objects on every processor, sharing no memory, stand for the empty states |
| RunOutcomes.RunAndDrain | src/bspx.c:396-417 | after a run with collective tag sizes, draining a queue on the arrays yields exactly the tags and payloads sent to that processor in the last superstep, by sender and then in call order |
| RunOutcomes.RunAndCount | src/bspx.c:316-320 | after a run and further calls, qsize on the arrays reports the messages sent in the last superstep less those moved, and the bytes of all their tags and payloads less the payloads moved |
| RunOutcomes.SuperstepOrAbort | src/bspx.c:97-173 | a superstep on the arrays goes on if and only if no processor removes an address more often than it is registered there |
| Interleavings.AnyInterleaving | src/bspx.c:97-173 | whatever the order in which processors move, one that begins superstep k has the state of the synchronous meaning |
| Interleavings.NothingOverflows | src/bspx.c:118-147 | in every reachable state, what arrives at a processor fits the slots it reserved |
| Interleavings.RequestExchangeAgreed | src/bspx.c:149-160 | in every reachable state the collected flags say whether anybody asks, and nobody enters or skips the request exchange in disagreement with that |
| Interleavings.SomebodyGoesOn | src/bspx.c:97-173 | in every reachable state some processor can move, unless all have finished |
| RunProperties.QueueIsWhatWasSent | src/bsp_delivtable.c:76-124 | the queue behind a boundary is what all processors sent here, by sender rank and then in call order |
| RunProperties.TagsAgree | src/bsp_delivtable.c:103-111 | with collective tag sizes all processors use equal tag sizes at the start of every superstep |
| RunProperties.NextTag | src/bspx.c:372-382 | the tag size in the next superstep is the last one asked for, or the old one |
| RunProperties.MovedMessagesAreSent | src/bspx.c:396-417 | over such a run, the messages moved in superstep k + 1 are the tags and payloads sent in superstep k |
| RunProperties.RegistersAgree | src/bsp_memreg.c:111-192 | with collective registrations and removals all processors hold equal registers at the start of every superstep |
| RunProperties.TranslationIsRemote | src/bspx.c:245-283 | then the translated address is the one the remote processor registered in the row of the most recent local registration |
| RunProperties.LegalRun | src/bspx.c:97-173 | the states of a legal program that begins with nothing logged are such a run |
| RunProperties.MessagesOfProgram | src/bspx.c:396-417 | the same for every legal program |
| RunProperties.TranslationOfProgram | src/bspx.c:245-283 | the same for every legal program |
| RegisterRuns.CallsRemove | src/bspx.c:225-231 | the removals logged for the own processor are those of the calls, in order |
| RegisterRuns.BoundaryFailsIff | src/bsp_memreg.c:125-147 | given equal numbers of registrations, the boundary fails on a processor if and only if it removes an address more often than it is registered |
| RegisterRuns.NextRegister | src/bsp_memreg.c:111-192 | the register behind a boundary is the one before with the new registrations, less the last rows of the removed addresses |
| RegisterRuns.OneRemoval | src/bsp_memreg.c:125-192 | one removal drops exactly the last row with its address from every column |
| RegisterRuns.TranslationBehind | src/bspx.c:245-283 | behind m removals an address translates to what stands in the row that has m later rows with the same address |
| RegisterRuns.RegisteredBehind | src/bspx.c:225-231 | an address is registered behind a boundary if and only if it was registered more often than it was removed |
| RegisterRuns.TablesOfProgram | src/bsp_memreg.c:111-192 | the registers in every superstep of a legal program, from the calls alone |
| RunCounts.CountsBehind | src/bsp_delivtable.c:84-90 | behind a boundary and after any calls: how many messages are left, and how many bytes are counted |
| RunCounts.CountsOfProgram | src/bspx.c:396-417 | the same in every superstep of a legal program |
| RunMemory.CallsPut | src/bspx.c:245-255 | what a processor has logged as puts for another is its puts: the bytes as they were at the call, for the registered address |
| RunMemory.CallsAsk | src/bspx.c:272-283 | what it has asked of another, answered out of any memory, is its gets |
| RunMemory.MemoryBehind | src/bsp_delivtable.c:52-62 | the memory behind a boundary, from the calls alone: own computation, then for each processor in turn its puts and what was got from it, a get bringing what was there before the boundary |
| RunMemory.MemoryOfProgram | src/bspx.c:97-173 | the same in every superstep of a legal program |
| RunOutcomes.MessagesUnderAnyInterleaving | src/bspx.c:396-417 | the same in every reachable state in which the processor begins a superstep |
| RunOutcomes.TranslationUnderAnyInterleaving | src/bspx.c:245-283 | the same in every reachable state in which the processor begins a superstep |
| GlobalPieces.InsideSlicesIff | src/bsp_global_drma.c:125-146 | the pieces of a range stay inside slices if and only if the range is empty or the start formula agrees with division by the slice size |
| GlobalPieces.DivisibleIsAligned | src/bsp_global_drma.c:129-130 | it does for every offset if the number of processors divides the array size |
| GlobalPieces.StartFormulaCanFail | src/bsp_global_drma.c:129-130 | it does not on a concrete array of 6 bytes on 4 processors |
| GlobalDrma.Round | src/bsp_global_drma.c:132-144 | every round makes progress, addresses an existing processor and transfers exactly the next piece of the range |
| GlobalDrma.GlobalPut | src/bsp_global_drma.c:125-146 | terminates on every range within the array, and logs for every processor exactly its piece of the range |
| GlobalDrma.GlobalGet | src/bsp_global_drma.c:97-117 | terminates on every range within the array, and asks every processor for exactly its piece of the range |
| GlobalRoundTrip.PutThenGet | src/bsp_global_drma.c:97-146 | put, sync, get of any other range by any processor: the bytes written where the ranges meet, and the array's old bytes where they do not |
| GlobalRoundTrip.RoundTrip | src/bsp_global_drma.c:97-146 | put, sync, get, sync on one range: both boundaries are defined, and the reader has the bytes written |
| Avectors.AVector.Resize | include/bsp_tools/Avector.h:72-115 | without a growth step, or to size 0, the size is exactly as asked; with step g > 1 it is a multiple of g behind n and at most n + g; the entries up to the smaller size stay, and only an own block is replaced |
| Avectors.RoundedIsNext | include/bsp_tools/Avector.h:85-86 | the size that is rounded to is n itself without a growth step, and with one the next multiple behind n, never n itself |
| SerializedRecords.JoinedChunks | src/bsp_cpp/SerializedDataset.h:77-79 | bytes copied into words are read back unchanged |
| SerializedRecords.HoldsOneMore | src/bsp_cpp/SerializedDataset.h:66-88 | a record written behind the last one, with its table entry, adds an element and changes no other: records do not overlap |
| SerializedRecords.DisplacedRestored | src/bsp_cpp/SerializedDataset.h:96-115 | the table entry that makes way for the number of elements is back in its place after the broadcast |
| SerializedDatasets.SerializedDataset.constructor | src/bsp_cpp/SerializedDataset.h:52-59 | a new dataset stores no elements |
| SerializedDatasets.SerializedDataset.AddElem | src/bsp_cpp/SerializedDataset.h:66-88 | one element more, at the end; all others stay, also across a resize |
| SerializedDatasets.SerializedDataset.Receive | src/bsp_cpp/SerializedDataset.h:105-115 | from the master's words a node of any size reaches the master's elements |
| SerializedDatasets.SerializedDataset.Restart | src/bsp_cpp/SerializedDataset.h:118-121 | reading begins with the first element |
| SerializedDatasets.SerializedDataset.NextName | src/bsp_cpp/SerializedDataset.h:124-127 | the name of the next element |
| SerializedDatasets.SerializedDataset.GetElem | src/bsp_cpp/SerializedDataset.h:130-139 | the data of the next element, and reading goes on with the one behind it |
| DatasetRuns.Broadcast | src/bsp_cpp/SerializedDataset.h:91-115 | every node ends with the master's elements, whatever it held before |
| DatasetRuns.Deliver | src/bsp_cpp/SerializedDataset.h:66-139 | every list of elements added by the master is read by any node, complete and in order |
| FftMath.RevRev | examples/bspedupack/bspfft.c:173-199 | bit reversal undoes itself |
| FftMath.UnorderedIsDft | examples/bspedupack/bspfft.c:6-17 | for every length 2^m and root with omega^(n/2) = -1, in every commutative ring: the unordered transform of the bit-reversed vector is the Fourier transform |
| FftKernels.BitrevInit | examples/bspedupack/bspfft.c:173-199 | entry j is j with its bits reversed |
| FftKernels.ReversalIsInvolution | examples/bspedupack/bspfft.c:173-199 | the table is a permutation that undoes itself |
| FftKernels.Permute | examples/bspedupack/bspfft.c:142-171 | in place, number j becomes the old number sigma[j], for every sigma that undoes itself |
| UnorderedFft.Ufft | examples/bspedupack/bspfft.c:4-47 | the three nested loops leave the unordered transform of the slice, and nothing else changes |
| FftPhases.Twiddle | examples/bspedupack/bspfft.c:91-116 | every number is multiplied by its weight, conjugated for the backward transform |
| FftPhases.SmallTransforms | examples/bspedupack/bspfft.c:296-297 | the small transforms of all blocks are the first stages of the large one |
| FftColumns.ColumnOfTransform | examples/bspedupack/bspfft.c:301-308 | every c-th entry of a stage of the transform is a twiddled, smaller transform of every c-th entry |
| FftLocals.StartsReversed | examples/bspedupack/bspfft.c:294-295 | permuting locally makes a cyclically distributed vector the bit reversal of the whole, in blocks, over processors numbered in reverse |
| Cycles.K1Init | examples/bspedupack/bspfft.c:202-217 | terminates, and the first transform size divides n/p |
| Cycles.RoundsComplete | examples/bspedupack/bspfft.c:301-308 | the first transforms and the rounds together have exactly the stages of the whole transform, so the cycles end at p |
| Cycles.TwiddleSpace | examples/bspedupack/bspfft_test.c:65 | the twiddle tables of all rounds fit in 2n/p + p doubles |
| Redistribution.PowersPack | examples/bspedupack/bspfft.c:235-238 | for powers of two the packets hold each local number once |
| Distributions.BlockAndCyclic | examples/bspedupack/bspfft.c:248-257 | with cycle 1 the group-cyclic distribution is by blocks, with cycle p it is cyclic |
| Redistribution.PacketLands | examples/bspedupack/bspfft.c:248-257 | all numbers of a packet belong to one processor of the new distribution, at consecutive places |
| Redistribute.PacketsAreTruthful | examples/bspedupack/bspfft.c:248-257 | every put carries each number to the place the new distribution assigns to its global index |
| Redistribute.PacketsCover | examples/bspedupack/bspfft.c:248-257 | every local number is in a packet that reaches its new place |
| Redistribute.PacketsDisjoint | examples/bspedupack/bspfft.c:248-257 | no two packets of any processors reach the same place |
| BspRedistr.Bspredistr | examples/bspedupack/bspfft.c:219-261 | for powers of two c0 <= c1 <= p <= n, also with reversed processor numbers: after the sync every processor holds its part of the same vector in the new distribution |
| RedistrPackets.OnePacketPerDestination | examples/mpiedupack/mpifft.c:261-271 | a processor sends at most one packet to each destination |
| RedistrPackets.OnePacketPerSource | examples/mpiedupack/mpifft.c:278-287 | a processor receives at most one packet from each source |
| RedistrPackets.RoundOf | examples/mpiedupack/mpifft.c:278-287 | every packet begins at the place where its receiver expects it, and from the processor it expects it from |
| MpiRedistr.CountsAgree | examples/mpiedupack/mpifft.c:252-287 | what a sender announces for a receiver is what the receiver, computing alone, expects from that sender |
| MpiRedistr.BlocksApart | examples/mpiedupack/mpifft.c:278-287 | the receive blocks of a processor do not overlap |
| MpiExchange.Mpiredistr | examples/mpiedupack/mpifft.c:219-301 | every processor ends with what bspredistr leaves |
| BspFft.NextRound | examples/bspedupack/bspfft.c:301-308 | one round takes the distributed vector through the next stages of the transform |
| BspFft.Bspfft | examples/bspedupack/bspfft.c:263-316 | with tables of powers of omega: forward, the cyclically distributed vector becomes its Fourier transform with root omega in the same distribution; backward, n times the result is the Fourier transform with the conjugate root |
| FftInverse.Inversion | examples/bspedupack/bspfft.c:321-325 | transforming with a root and then with its inverse multiplies every number by n |
| FftRoundTrip.RootsAreUnits | examples/bspedupack/bspfft.c:303-306 | a root of the required kind has absolute value 1, so conjugating it inverts it |
| FftRoundTrip.BackwardOfForward | examples/bspedupack/bspfft.c:310-314 | a vector n times which is the backward transform of the forward transform of X is X |
| FftRoundTrip.ForwardAndBackward | examples/bspedupack/bspfft_test.c:83-87 | a forward and a backward transform with the same tables leave every processor with what it began with |
| Puts.Deliver | src/bsp_delivtable.c:58-62 | the puts are carried out in order on the destinations' arrays; what puts that carry the right values reach becomes right, and what was right stays right |
| EnginePuts.PutLogsRecord | src/bspx.c:245-255 | a call of put by a kernel logs the record of the bytes of its values, at the registered address and offset |
| EnginePuts.DeliverIsSync | src/bsp_delivtable.c:52-62 | where the kernels' delivery leaves an array, the superstep boundary leaves exactly the bytes of that array in memory, for every fixed-size encoding, and changes no other byte |
| Broadcast.BlocksCover | examples/bspedupack/bsplu.c:18-25 | the blocks of all members cover the vector, also if the last are short or empty |
| BroadcastRun.TwoPhaseBroadcast | examples/bspedupack/bsplu.c:5-43 | phase 0, sync, phase 1, sync: for any length and any groups, every member ends with the numbers of its source and nothing else changes |
| LuGrid.OwnerOf | examples/bspedupack/bsplu.c:45-51 | every index has exactly one owner and local place in the cyclic distribution |
| LuLocal.SearchColumn | examples/bspedupack/bsplu.c:99-110 | the first local entry of largest absolute value, if any is not zero |
| LuPivot.BestIsPivot | examples/bspedupack/bsplu.c:123-131 | the best of the local maxima is an entry of largest absolute value of the whole column |
| LuSwap.Swap | examples/bspedupack/bsplu.c:147-160 | the puts of all processors exchange two distributed rows, whoever owns them, and change nothing else |
| LuScale.ScaleAll | examples/bspedupack/bsplu.c:130-135 | the column below the diagonal is divided by the pivot, whose own value stays |
| LuExchange.SpreadAll | examples/bspedupack/bsplu.c:162-182 | every processor gets its parts of the column of multipliers and of the pivot row |
| BspLu.UpdateAll | examples/bspedupack/bsplu.c:184-189 | all local updates together are the elimination step on the whole matrix |
| LuMath.StageFits | examples/bspedupack/bsplu.c:87-190 | swap and elimination keep the invariant that the permuted matrix is the product so far plus the rest |
| LuMath.StageKeepsSmall | examples/bspedupack/bsplu.c:130-135 | all multipliers stay at most 1 in absolute value |
| LuMath.FactorsMultiply | examples/bspedupack/bsplu.c:53-58 | at the end the permuted matrix is the product of the two triangular factors |
| BspLu.StageOf | examples/bspedupack/bsplu.c:87-190 | a stage goes on if and only if some remaining entry of its column exceeds 1.0e-15 in absolute value; then it is the stage on the whole matrix, with a largest entry as pivot |
| BspLu.Bsplu | examples/bspedupack/bsplu.c:53-199 | if no stage aborts: a permutation, a unit lower and an upper factor with A(pi(i),j) = (LU)(i,j), multipliers at most 1, all diagonal entries of U above 1.0e-15 in absolute value; it aborts only where every remaining entry of the column is at most 1.0e-15 |
| CountingSort.Sort | examples/bspedupack/bspmv_test.c:157-236 | the nonzeros are in increasing order of the key, those of equal key in their old order; a permutation of the old ones |
| SparseMath.TwoPasses | examples/bspedupack/bspmv_test.c:166-169 | sorting by the last digit and then by the first sorts by the whole index, stably |
| Icrs.FindRadix | examples/bspedupack/bspmv_test.c:280-285 | terminates with the smallest power of two whose square is at least n |
| Icrs.CountDistinct | examples/bspedupack/bspmv_test.c:291-300 | the number of different indices of a sorted list |
| Icrs.Triple2Icrs | examples/bspedupack/bspmv_test.c:238-364 | values, increments with the closing one, and the lists of nonempty rows and columns of the sorted, renumbered nonzeros |
| IcrsProduct.IndexLists | examples/bspedupack/bspmv_test.c:303-315 | the index lists are strictly increasing and hold exactly the nonempty rows and columns |
| IcrsProduct.StoredInOrder | examples/bspedupack/bspmv_test.c:317-319 | the stored nonzeros lie by row and then by column, with local columns in range |
| IcrsProduct.MatrixPreserved | examples/bspedupack/bspmv_test.c:238-272 | anything summed over the nonzeros is the same before and after the conversion |
| IcrsProduct.RowProduct | examples/bspedupack/bspmv.c:75-85 | driven by the increments alone, the inner loop stops at the end of its row with the sum of that row |
| BspMv.LookUp | examples/bspedupack/bspmv.c:163-173 | the owner and local index found for every index are the true ones |
| BspMv.BspmvInit | examples/bspedupack/bspmv.c:111-185 | for any distribution of the vectors, every processor finds the owner and the local index there of every component it needs |
| BspMv.LocalProduct | examples/bspedupack/bspmv.c:67-85 | one partial sum per local row, addressed to the owner of that component |
| BspMvMath.PartOfProduct | examples/bspedupack/bspmv.c:88-96 | what a processor sends for a component adds up to its part of the product |
| BspMv.ProductIsMatrixTimes | examples/bspedupack/bspmv.c:8-12 | the sum over all processors' nonzeros is the matrix row times the vector |
| BspMv.Bspmv | examples/bspedupack/bspmv.c:3-101 | for any distribution of nonzeros and vectors, every component of u ends as the sum over j of A(i,j) v(j) |
| SparseRun.Convert | examples/bspedupack/bspmv_test.c:238-364 | what triple2icrs leaves is a stored matrix as bspmv expects it |
| SparseRun.SparseProduct | examples/bspedupack/bspmv_test.c:483-591 | conversion, init and product together: u = A v for the matrix of the triples as given |

## Left out

- BspObjects.BspObject.HpMove: returns the tag and the payload that the two pointers lead to, within the record, not the pointers.
- GlobalDrma.GlobalPut: the 64-bit wrap-around of a negative place is modelled as the negative number that the call to `bspx_put` receives.
- SerializedDatasets.SerializedDataset.AddElem: adding more elements than the dataset was made for is not modelled; the code does not check it, and the surplus table entries overwrite the spare words and then the first record.
- BspFft.Bspfft: the weight tables are inputs with the algebraic properties that `bspfft_init` gives them; `cos`, `sin` and rounding are not modelled.
- BspLu.Bsplu: registration and removal of its arrays, and the allocation of local rows in one block, are not modelled; a matrix row is one slot.
- BspMv.Bspmv: the registration of v and the tag size are not modelled; messages are pairs of an index and a sum.
- Integers are unbounded: 32-bit wrap-around of sizes, offsets and counts is not modelled. Sizes of records are those of a 64-bit build.
- Reading an address of memory that was never written gives 0; the bytes that pad a payload to whole slots are not represented.
- MPI, TBB, mutexes, timing, abort, allocation failure and freeing memory. `MPI_Alltoall` and `MPI_Alltoallv` copy what each processor sends to the place its receiver reserved.
- Copying a payload is merged with the push of its record; in the program the caller copies it behind the push.
- `bspx_move`, `bspx_get_tag`, `bspx_resetbuffers`, `memoryRegister_expand` (not used by a push) and the high-performance variants of put and get, which call the buffered ones.
- The contexts and processor mappers of `src/bsp_cpp/`, of which only the serialized dataset is modelled; `bspx_global_alloc` and its search for a handle: the entry of the array is given.
- A processor that registers more often than others in a superstep: the boundary of the model is defined only where all register equally often.
- In the run on objects the processes make their calls one after the other; that the order does not matter is `Interleavings.AnyInterleaving`, on records instead of arrays.
- The kernels use puts, gets and messages of whole numbers. For puts `EnginePuts.DeliverIsSync` leads back to the bytes of the engine, in supersteps in which the receiver gets nothing; for gets and messages of the kernels there is no such lemma.
- File and console input of the example drivers, `ufft_init`, `twiddle_init`, `mpilu.c`, `mpimv.c`, `mpimv_test.c` and the rest of `mpifft.c`.
