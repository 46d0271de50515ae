# Verified models of a tiled manycore's host runtime

The repository drives a manycore processor from a host: it launches groups of tiles,
moves data over the on-chip network, translates addresses, allocates device memory,
loads programs, and ships example kernels. This project models its algorithms in
Dafny and proves what they promise. Check everything with
`dafny verify dfyconfig.toml`.

The parts, from the bottom up:

* `Bits`: shifts, masks, bitwise or and and, quotients and logarithms on unsigned numbers.
* `Coordinates`, `PodGeometry`: flat indices, the scan of a rectangle, where pods, cores
  and DRAM banks sit, and the numbering of banks.
* `MemoryManager`: the first-fit allocator with lazy coalescing, as a class over its two
  lists, against specification functions whose invariants hold for every history.
* `TileGroups`, `Resources`, `Launching`, `Enqueue`, `Execution`, `Reachable`: a pod as a
  value, with the steps of the scheduler (enqueue, rectangle search, launch pass, finish),
  when a launch fails, what every step keeps, every reachable state, and when a run can
  finish.
* `LaunchData`, `History`, `FinishSignal`: the words a launch copies to the device, what is
  launched in the course of a run, and the way of a group's finish signal to the host.
* `Runtime`, `Device`: the same scheduler as classes that change tiles, groups, kernels and
  device memory in place, up to the loop that runs several pods until all groups ended, a
  launch failed, or the host waits for nothing, with a device that ends groups in any order
  and sends other packets in between.
* `Barrier`: the word each tile writes to configure the hardware barrier, and the reduction
  tree that all of them form together.
* `EvaMap`, `TileAddresses`: translation between the tiles' virtual addresses (EVA) and
  network addresses (NPA), with DRAM striped over the banks of a pod; what the other EVAs
  mean, as numbers.
* `RemoteRead`: the pipelined load engine over a network that answers in any order.
* `EvaCopy`, `EvaWindows`: chunked writes, reads and fills of a range of EVAs, for any
  address map that obeys three laws, and the proof that the default map obeys them for
  DRAM and for a tile's data memory.
* `Loader`: loading the segments of a program.
* `Vcache`, `DramRemap`: cache line addresses and the sweep over a pod's caches; the
  field mapping of the DRAM simulators.
* `Matrices`, `SgemmKernel`, `SgemmGroup`: the blocked matrix product on a group of tiles.
* `HarrisImages`, `HarrisKernel`, `HarrisAddresses`, `HarrisHost`: the corner detector on 32
  tiles, the addresses of neighbours' buffers, the host's reference stages, and the
  comparison of the two.

## What is assumed

* Pod shapes are powers of two with at least two rows, coordinates fit eight bits, and the
  host is not in a row of southern banks (`PodGeometry.Valid`). A pod's mesh starts at the
  pod's origin and is no larger than the pod.
* Groups have at least one tile, and grids at least one group. Groups need not fit the mesh
  or the memory. Running a grid of more than 1024 groups is not covered, because their
  signal addresses do not fit (`Enqueue.EnqueueIsReady` has the exact condition).
* The memory region starts above 0, ends at or below 2^32, and its start is a multiple of
  the alignment, which is a multiple of 4. For pods that copy arguments to the device it
  lies in the DRAM window. The exact conditions of launches assume that all of its
  addresses translate (`Launching.Usable`).
* Meshes have fewer than 256 rows and columns, and kernels fewer than 2^30 argument words,
  so the sizes of a launch's buffers are 32-bit numbers. Host buffers are word aligned.
* The network works while groups are launched.
* The network answers every load once, is busy finitely often, and either works
  (`reliable`) or may report an error at any time. The device ends each launched group
  once; packets that are no finish signals of a launched group may come in between,
  finitely many, from a coordinate of some pod.
* Bits of a DRAM EVA below the DRAM bit hold stripe, column and side; a bank's byte address
  has at most 30 bits; stripes are at least a word and no larger than a bank
  (`EvaMap.Valid`, `EvaWindows.Good`). `EvaWindows.OnePodMachine` is a configuration that
  meets all of this.
* A field of a simulated DRAM address has at most 30 bits, as its mask is a 32-bit number;
  the configurations that use the mapping admit at most 15.
* Program segments obey the ELF standard: p_filesz is at most p_memsz and address ranges of
  loadable segments do not overlap. They start in DRAM or in data memory.
* Matrix elements are integers; the block size is a multiple of 4 that divides every
  dimension, and columns are next to each other. Image channels are 0 to 255.

## Where code and documentation differ

* `hb_mc_device_pod_malloc` documents an out-of-memory error. The code narrows the result
  to 32 bits before it compares with the 64-bit null, so the error is never reported and
  the caller gets 0xFFFFFFFF: `MemoryManager.PodMallocNeverReportsNoMem`, and for a small
  region `MemoryManager.ExhaustedMallocSucceeds`.
* A launch that gets no buffer therefore fails later, in the copy to 0xFFFFFFFF. The error
  ends the run, and the group keeps its tiles without ever running. A launch succeeds
  exactly when a listed hole holds each of its buffers: `Launching.LaunchSucceedsExactly`.
  `Reachable.ExhaustedPodStops` is a run that fails although its group fits the mesh;
  memory that has one hole for all waiting groups is enough (`Reachable.EnoughNeverStops`),
  and a group that is larger than the memory never runs (`Reachable.TooLargeNeverFinishes`).
  What holds in between depends on the order in which groups end.
* The barrier configuration forms a tree exactly for ruche factor 3, for factor 2 when a
  group is at most 3 tiles wide, and for factor 1 when it is one tile wide; the
  configuration admits 0 to 3: `Barrier.TreeExactlyWhenSupported`.
* NPA to EVA to NPA gives back a valid bank address exactly when its block number fits the
  EVA's field: `EvaMap.NpaRoundTripExactly`. `EvaWindows.DeepAddressIsLost` is an address
  that does not come back.
* The size reported for a DRAM EVA is too large when a stripe is larger than a bank:
  `EvaMap.StripeMustFitBank`, with a machine in `EvaWindows.SmallBankMachine`.
* A finish signal survives the 16-bit address field of a global EVA exactly for grids of at
  most 1024 groups: `Enqueue.FinishAddressesFit`, `FinishSignal.SignalIsDelivered`.
* A group larger than the mesh is never launched, whatever happens, so waiting for it never
  ends: `Reachable.StuckForever`. A run finishes exactly when all its groups fit the mesh
  and no launch has failed: `Reachable.RunFinishesExactly`.

## Model

| member | source | states |
|---|---|---|
| Coordinates.IndexRoundTrip | libraries/bsg_manycore_coordinate.h:179-190 | coordinate to flat index and back is the identity inside a rectangle, and the index is in range |
| Coordinates.CoordRoundTrip | libraries/bsg_manycore_coordinate.h:179-190 | flat index to coordinate and back is the identity |
| Coordinates.ScanVisitsAllOnce | libraries/bsg_manycore_coordinate.h:232-268 | the coordinate iteration visits every coordinate of the rectangle once, in order, and stops |
| PodGeometry.CoreBelongsToPod | libraries/bsg_manycore_config_pod.h:52-68 | every core of a pod maps back to that pod and to its position in it |
| PodGeometry.BankBelongsToPod | libraries/bsg_manycore_config_pod.h:141-217 | every bank of a pod maps back to the pod; it is a northern or southern bank by its row, and never a core |
| PodGeometry.PodDramRoundTrip | libraries/bsg_manycore_config_pod.h:219-290 | bank coordinate to number inside a pod and back |
| PodGeometry.PodDramIdRoundTrip | libraries/bsg_manycore_config_pod.h:219-290 | bank number inside a pod to coordinate and back |
| PodGeometry.PodDramIsNumber | libraries/bsg_manycore_config_pod.h:219-290 | banks of a pod are numbered along the row above it and then along the row below it, at the coordinates that the pod's position gives |
| PodGeometry.DramRoundTrip | libraries/bsg_manycore_config_pod.h:236-300 | device-wide bank number: coordinate to number and back, for every pod |
| PodGeometry.DramIdRoundTrip | libraries/bsg_manycore_config_pod.h:236-300 | device-wide bank number: every number names a bank of some pod and comes back |
| PodGeometry.DramIterationIsExact | libraries/bsg_manycore_config_pod.h:79-127 | the bank iteration is at bank k after k steps and stops after exactly twice the pod's width |
| MemoryManager.BlocksAreSeparate | libraries/bsg_manycore_memory_manager.h:40-78 | the invariant in terms of blocks: all free and busy blocks lie in the region and are pairwise disjoint |
| MemoryManager.RoundUpIsLeast | libraries/bsg_manycore_memory_manager.cpp:42-50 | the rounded size is the least positive multiple of the alignment that holds the request |
| MemoryManager.AllocIsSound | libraries/bsg_manycore_memory_manager.cpp:42-73 | null iff no hole holds the rounded size, and then nothing changes; otherwise an aligned block inside the region, disjoint from all live ones, and the free total drops by its size; the invariant is kept |
| MemoryManager.FirstFit | libraries/bsg_manycore_memory_manager.cpp:51-58 | the chosen hole is the first one that is large enough |
| MemoryManager.AllocTakesFirst | libraries/bsg_manycore_memory_manager.cpp:42-73 | if a hole holds the rounded size and none before it on the list does, its start is handed out, it loses exactly its first bytes or disappears, and all other holes, the busy list before the new block and nothing else stay |
| MemoryManager.FreeIsSound | libraries/bsg_manycore_memory_manager.cpp:76-91 | exactly the block at the address leaves the live ones and its bytes become free; an unknown address changes nothing; the invariant is kept |
| MemoryManager.FreeExactly | libraries/bsg_manycore_memory_manager.cpp:76-91 | freeing a busy block takes it off the busy list and, with fewer than four holes before, appends it to the free list; with four or more the free list is sorted, with a gap after every hole, and holds the same addresses and the block's |
| MemoryManager.Find | libraries/bsg_manycore_memory_manager.cpp:119-136 | the first busy block that starts at the address, if any |
| MemoryManager.FreeUndoesAlloc | libraries/bsg_manycore_memory_manager.cpp:42-91 | freeing what was just allocated restores the busy list, the free total and the set of free addresses |
| MemoryManager.CoalesceIsSound | libraries/bsg_manycore_memory_manager.cpp:93-117 | coalescing keeps the set of free addresses and the invariant, and leaves the list sorted with a gap after every block |
| MemoryManager.SortIsSorted | libraries/bsg_manycore_memory_manager.cpp:93-100 | sorting by address is a sorted permutation |
| MemoryManager.MergeLeavesGaps | libraries/bsg_manycore_memory_manager.cpp:100-117 | merging an ascending list leaves no two touching neighbours |
| MemoryManager.MergeUnfolds | libraries/bsg_manycore_memory_manager.cpp:100-117 | one step of the loop that erases from the list it walks does one step of the merge |
| MemoryManager.RunIsValid | libraries/bsg_manycore_memory_manager.cpp:42-117 | the invariant holds after every sequence of allocations and frees |
| MemoryManager.LiveUntilFreed | libraries/bsg_manycore_memory_manager.cpp:42-117 | a live block stays live, and disjoint from all others, until it is freed |
| MemoryManager.HistoryInvariant | libraries/bsg_manycore_memory_manager.cpp:27-117 | after any history every address of the region is in exactly one block, and the free total is what is not allocated |
| MemoryManager.Manager.constructor | libraries/bsg_manycore_memory_manager.cpp:27-34 | the whole region is one free block |
| MemoryManager.Manager.Allocate | libraries/bsg_manycore_memory_manager.cpp:42-73 | the lists change in place to the specified state, whose law is `AllocTakesFirst` |
| MemoryManager.Manager.Release | libraries/bsg_manycore_memory_manager.cpp:76-91 | the lists change in place to the specified state, whose law is `FreeExactly` |
| MemoryManager.Manager.Coalesce | libraries/bsg_manycore_memory_manager.cpp:93-117 | the loop terminates with the merge of the sorted list |
| MemoryManager.PodMallocNeverReportsNoMem | libraries/bsg_manycore_cuda.cpp:1096-1122 | always success; a new block exists iff a hole was large enough, else the address is 0xFFFFFFFF |
| MemoryManager.ExhaustedMallocSucceeds | libraries/bsg_manycore_cuda.cpp:1096-1122 | a region with all of its memory in use, where an allocation reports success with the address 0xFFFFFFFF |
| MemoryManager.AllocKeepsHole | libraries/bsg_manycore_memory_manager.cpp:42-73 | a hole that holds the rounded request and more still holds the rest afterwards |
| MemoryManager.FreeKeepsHole | libraries/bsg_manycore_memory_manager.cpp:76-117 | freeing, also with a coalesce, never makes the largest hole smaller |
| MemoryManager.AllocIsNew | libraries/bsg_manycore_cuda.cpp:1096-1122 | an address from a large enough hole fits 32 bits and differs from every live one |
| TileGroups.TileIdInvertsWhere | libraries/bsg_manycore_cuda.cpp:274-280 | tile number and coordinate determine each other inside the mesh |
| TileGroups.PlacementIsComplete | libraries/bsg_manycore_cuda.cpp:1451-1535 | the rectangle search fails iff no placement in the mesh is free, and else finds the first in scan order |
| TileGroups.BusierHasNoNewPlace | libraries/bsg_manycore_cuda.cpp:1700-1733 | with more tiles busy, a shape without a place stays without one |
| TileGroups.ShortcutIsSound | libraries/bsg_manycore_cuda.cpp:1700-1733 | for groups of any shape, a pass that skips the shape that failed last launches the same groups at the same origins as one that searches every time, and stops at the same failed launch |
| TileGroups.PassIsSafe | libraries/bsg_manycore_cuda.cpp:1700-1733 | a launch pass, also one that a failed launch ends, keeps the scheduler's safety and only gives waiting groups a place |
| TileGroups.PassIsExhaustive | libraries/bsg_manycore_cuda.cpp:1700-1733 | after a pass that no failed launch ended, no waiting group has a place left |
| TileGroups.PlaceIsSafe | libraries/bsg_manycore_cuda.cpp:1451-1535 | colouring a free rectangle keeps all rectangles in the mesh and disjoint, and busy tiles owned |
| TileGroups.RetireIsSafe | libraries/bsg_manycore_cuda.cpp:1540-1568 | freeing a group's rectangle keeps all other rectangles in the mesh and disjoint, and busy tiles owned |
| TileGroups.BusyTileHasOneOwner | libraries/bsg_manycore_cuda.cpp:1451-1568 | a tile is busy iff it lies in the rectangle of a placed group, and it lies in at most one |
| TileGroups.IdleMeshHasRoom | libraries/bsg_manycore_cuda.cpp:1451-1535 | on an idle mesh every shape that fits has a place |
| Resources.LaunchIsAccounted | libraries/bsg_manycore_cuda.cpp:1575-1674 | a launch that starts its group keeps the accounts: reference counts, the blocks held, and no sharing of buffers |
| Resources.RetireIsAccounted | libraries/bsg_manycore_cuda.cpp:1313-1340 | a finish keeps reference counts, blocks held and unshared buffers right, and leaves one unfinished group less |
| Resources.PassIsAccounted | libraries/bsg_manycore_cuda.cpp:1700-1733 | a pass without a failed launch keeps reference counts, blocks held and unshared buffers right |
| Resources.PassIsCounted | libraries/bsg_manycore_cuda.cpp:1700-1733 | reference counts and the memory manager stay right in any pass, also one that a failed launch ends |
| Resources.TwoMallocs | libraries/bsg_manycore_cuda.cpp:1575-1674 | a launch's two buffers are new, live and different, unless memory ran out |
| Resources.AllReleased | libraries/bsg_manycore_cuda.cpp:1313-1340 | with all groups finished the busy list and free total are what they were, every count is zero and every kernel was cleaned up once |
| Launching.BufferFillsExactly | libraries/bsg_manycore_cuda.cpp:1640-1650 | a buffer that was asked for can be filled iff a hole held the rounded size or there is nothing to copy |
| Launching.LaunchSucceedsExactly | libraries/bsg_manycore_cuda.cpp:1575-1674 | a launch starts its group iff a hole holds the arguments, if any, and then one holds the barrier's words, if the program has a barrier |
| Launching.LaunchObtains | libraries/bsg_manycore_cuda.cpp:1575-1674 | a launch always obtains and records the arguments' buffer, and the barrier's once the arguments have been copied, whether it then succeeds or not |
| Launching.FailedLaunchIsStarved | libraries/bsg_manycore_cuda.cpp:1633-1674 | after a failed launch the group has its tiles, and the free list has no hole for one of its buffers |
| Launching.StoppedPassIsStarved | libraries/bsg_manycore_cuda.cpp:1700-1733 | a pass that a failed launch ended leaves a group that has its tiles and no hole for one of its buffers |
| Launching.BuffersApart | libraries/bsg_manycore_cuda.cpp:1575-1674 | the two buffers of a launch lie in the region, word aligned, and share no address, unless memory ran out |
| Launching.PassKeepsEnough | libraries/bsg_manycore_cuda.cpp:1700-1733 | if one hole holds what all waiting groups need, no launch of a pass fails, and one hole still holds what the remaining ones need |
| Launching.RetireKeepsEnough | libraries/bsg_manycore_cuda.cpp:1313-1340 | a finish leaves a hole for all waiting groups if there was one |
| LaunchData.TileFindsItsWord | libraries/bsg_manycore_cuda.cpp:1606-1617 | word 0 of the barrier array is zero, and word 1 + y * width + x is the control word of tile x, y |
| LaunchData.WordArrives | libraries/bsg_manycore_cuda.cpp:1646-1650 | a load of word k of a range that the host filled returns word k of the host's array |
| History.RetireRuns | libraries/bsg_manycore_cuda.cpp:1313-1340 | a finish keeps arguments, shape and signal address of every other unfinished group, and starts none |
| History.LaunchRuns | libraries/bsg_manycore_cuda.cpp:1633-1674 | a launch moves only its own group, and if it starts the group its buffers hold the group's arguments |
| History.RunsTransitively | libraries/bsg_manycore_cuda.cpp:1895-1914 | what was launched in two parts of a run, one after the other, was launched once in the whole, with the arguments from its beginning |
| History.FinishedRunsAll | libraries/bsg_manycore_cuda.cpp:1895-1914 | if everything has finished, every group that was waiting has been started exactly once, with its own arguments, and no other group has |
| Enqueue.FinishAddressesDiffer | libraries/bsg_manycore_cuda.cpp:256-261 | two groups of a grid signal at the same address iff they are the same group |
| Enqueue.FinishAddressesFit | libraries/bsg_manycore_cuda.cpp:256-261 | all signal addresses of a grid fit 16 bits iff it has at most 1024 groups |
| Enqueue.EnqueueIsSteady | libraries/bsg_manycore_cuda.cpp:1346-1429 | enqueuing a grid of any size keeps safety and counts; it appends one waiting group per grid coordinate, with that coordinate and its signal address, and one kernel with the given arguments that counts them |
| Enqueue.EnqueueIsReady | libraries/bsg_manycore_cuda.cpp:1346-1429 | enqueuing leaves a pod ready to run iff the grid has at most 1024 groups; all waiting groups fit the mesh iff they did and the new shape does |
| Execution.PassMakesProgress | libraries/bsg_manycore_cuda.cpp:1700-1733 | after a pass a launch has failed, or a group is running, or only finished groups and groups that the mesh cannot hold are left |
| Execution.IdleMemoryIsReady | libraries/bsg_manycore_cuda.cpp:1096-1153 | while nothing runs the program may allocate and free device memory itself |
| Execution.PacketFindsItsGroup | libraries/bsg_manycore_cuda.cpp:1834-1874 | the source of a finish packet maps to its pod, and exactly its own group matches origin and address there |
| Reachable.StepIsSteady | libraries/bsg_manycore_cuda.cpp:1282-1733 | every step of host or device, also a pass that a failed launch ends, keeps safety, counts and memory, and leaves groups alone that do not fit the mesh or whose launch failed |
| Reachable.ReachableIsSafe | libraries/bsg_manycore_cuda.cpp:1282-1733 | in every reachable state placed rectangles are in the mesh and disjoint, a tile is busy iff it is in one and records its group, counts are exact, each kernel is cleaned up once when its last group ends, and memory is sound |
| Reachable.KernelKeepsArguments | libraries/bsg_manycore_cuda.cpp:1313-1340 | in every later state a kernel with unfinished groups has the arguments it had, and it gets no new groups |
| Reachable.ArgumentsReachEveryGroup | libraries/bsg_manycore_cuda.cpp:1346-1429 | after a grid was enqueued and any events, each of its groups that has not finished has its coordinate, shape and signal address, and a kernel with the arguments of the call |
| Reachable.StuckForever | libraries/bsg_manycore_cuda.cpp:1700-1733 | a waiting group that does not fit the mesh, or one whose launch failed, is the same after every sequence of events, and no state it is in is finished |
| Reachable.RunFinishesExactly | libraries/bsg_manycore_cuda.cpp:1895-1914 | after any events and a pass that leaves nothing running, everything is finished iff all groups fitted the mesh at the start and no launch has failed |
| Reachable.EnoughNeverStops | libraries/bsg_manycore_cuda.cpp:1895-1914 | if one hole holds what all waiting groups need, no launch fails in any sequence of passes and finishes |
| Reachable.TooLargeNeverFinishes | libraries/bsg_manycore_cuda.cpp:1895-1914 | a group with a buffer larger than the pod's memory never runs in any sequence of events |
| Reachable.ExhaustedPodStops | libraries/bsg_manycore_cuda.cpp:1633-1674 | a pod with one tile, four bytes of memory and a group with two arguments: the pass fails, and the group keeps its tile for good |
| Runtime.PodObject.constructor | libraries/bsg_manycore_cuda.cpp:668-770 | a new pod has all tiles free, no groups and one free block of memory, and is ready |
| Runtime.PodObject.PaintTiles | libraries/bsg_manycore_cuda.cpp:1506-1527 | the loop over a rectangle changes exactly its tiles |
| Runtime.PodObject.RectIsFree | libraries/bsg_manycore_cuda.cpp:1482-1491 | the loop over a rectangle finds out whether all its tiles are free |
| Runtime.PodObject.AllocateTiles | libraries/bsg_manycore_cuda.cpp:1451-1535 | succeeds iff there is a free placement, and then takes the first |
| Runtime.PodObject.CopyToDevice | libraries/bsg_manycore_cuda.cpp:1202-1217 | succeeds iff the range is aligned and mapped; then it holds the words, and nothing outside it changes |
| Runtime.PodObject.BarrierWords | libraries/bsg_manycore_cuda.cpp:1606-1617 | the loop over the group's tiles builds the barrier array |
| Runtime.PodObject.LaunchGroup | libraries/bsg_manycore_cuda.cpp:1633-1674 | does the launch step in place; returns success iff the group is launched, and then records the launch: its buffers hold the arguments its kernel had before the call and the barrier array; nothing outside the pod's memory changes |
| Runtime.PodObject.TryLaunchGroup | libraries/bsg_manycore_cuda.cpp:1706-1730 | places a waiting group iff there is a placement, and then launches it, which may fail |
| Runtime.PodObject.TryLaunch | libraries/bsg_manycore_cuda.cpp:1700-1733 | the loop over groups does one pass, returns an error iff a launch in it failed, and records each group it started once, with its arguments |
| Runtime.PodObject.FinishGroup | libraries/bsg_manycore_cuda.cpp:1313-1340 | frees exactly the group's tiles and its buffers, marks it finished, counts down its kernel, and drops the kernel's arguments only with the last group |
| Runtime.PodObject.AllFinished | libraries/bsg_manycore_cuda.cpp:1435-1446 | true iff every group has finished |
| Runtime.PodObject.EnqueueGrid | libraries/bsg_manycore_cuda.cpp:1346-1429 | one group per coordinate, through a growing array |
| Device.DeviceObject.Receive | libraries/bsg_manycore_cuda.cpp:1816-1818 | the device as seen by the host: the finish packet of any launched group, or one of finitely many unrelated packets, or, only if no group is launched, a read that never returns |
| Device.DeviceObject.FindGroup | libraries/bsg_manycore_cuda.cpp:1842-1862 | finds a matching launched group iff there is one |
| Device.DeviceObject.WaitForFinish | libraries/bsg_manycore_cuda.cpp:1807-1882 | returns after retiring exactly one launched group of one pod, whatever arrives in between, unless no group is running |
| Device.DeviceObject.Round | libraries/bsg_manycore_cuda.cpp:1902-1911 | one iteration leaves one unfinished group less in total, or its relaunch fails for want of memory, or it waits with nothing running |
| Device.LaunchGives | libraries/bsg_manycore_cuda.cpp:1700-1733 | a pass on a ready pod fails for want of memory, or leaves it ready with a group running or only groups that do not fit; it keeps which groups fit and whether memory is enough |
| Device.DeviceObject.KernelsExecute | libraries/bsg_manycore_cuda.cpp:1895-1914 | ends for every order of finishes in one of three ways: every group of the listed pods has finished, after being started exactly once with the arguments it had at the call, with tiles, memory and counts back to what they were, and all groups had fitted; or a launch failed on a listed pod, which has a group without a hole for its buffers; or the host waits with nothing running, because a group does not fit; if all groups fit and memory is enough, it is the first; other pods are unchanged |
| Barrier.Decode | libraries/bsg_manycore_cuda_barrier.h:36-111 | output direction and input mask of the word, field by field |
| Barrier.ControlWordBits | libraries/bsg_manycore_cuda_barrier.h:36-111 | the control word as a number: the output code from 1 to 7 from bit 16 on, each input bit, and zeros elsewhere |
| Barrier.TreeExactlyWhenSupported | libraries/bsg_manycore_cuda_barrier.h:36-111 | the tiles' words form one reduction tree iff the ruche factor is 3, or 2 with at most 3 columns, or 1 with one column |
| Barrier.RootWaitsForAll | libraries/bsg_manycore_cuda_barrier.h:36-111 | in every run of a tree the root fires only after all tiles have arrived |
| Barrier.SomeoneCanFire | libraries/bsg_manycore_cuda_barrier.h:36-111 | once all have arrived and one has not fired, some tile can fire |
| Barrier.RootIsNeverBlocked | libraries/bsg_manycore_cuda_barrier.h:36-111 | once all have arrived, firing tiles alone reach the root |
| EvaMap.DramTranslation | libraries/bsg_manycore_eva.cpp:398-589 | a DRAM EVA is taken apart into bank column, side, block and stripe offset, and fails iff the bank address is too large |
| EvaMap.DispatchIsDram | libraries/bsg_manycore_eva.cpp:602-626 | EVAs with the top bit set take the DRAM branch |
| TileAddresses.GroupLeadsToTile | libraries/bsg_manycore_eva.cpp:234-282 | 0x20000000 plus fields y, x and address leads to that address of the tile x, y from the map's origin, data memory or one of three registers, and fails exactly beyond the pod or at other addresses |
| TileAddresses.GlobalLeadsToTile | libraries/bsg_manycore_eva.cpp:303-332 | 0x40000000 plus fields y, x and address leads to that address of the tile at x, y, and fails exactly where the tile has none |
| TileAddresses.LocalLeadsToSelf | libraries/bsg_manycore_eva.cpp:187-213 | an EVA below 2^29 leads to the issuing tile's own data memory or registers, and fails at all other addresses |
| TileAddresses.DramLeadsToBank | libraries/bsg_manycore_eva.cpp:398-589 | 0x80000000 + ((2 * block + side) * width + column) * stripe + offset leads to byte block * stripe + offset of the bank in that column above or below the issuing tile's pod, with the rest of the stripe as size, and fails iff the bank has no such address |
| TileAddresses.TileRoundTrip | libraries/bsg_manycore_eva.cpp:847-975 | an address in a tile's data memory becomes the global EVA with its coordinate, which leads back to it; other addresses of a tile have no EVA |
| TileAddresses.BankToEva | libraries/bsg_manycore_eva.cpp:634-800 | a byte of a bank of the tile's pod becomes its DRAM EVA if the bank holds it, and has no EVA otherwise |
| TileAddresses.NoEvaElsewhere | libraries/bsg_manycore_eva.cpp:669-975 | what is neither a tile, nor the host, nor a bank in the columns of the tile's pod has no EVA |
| EvaMap.StripingIsInjective | libraries/bsg_manycore_eva.cpp:398-589 | two DRAM EVAs of a pod never share an NPA |
| EvaMap.ChunkIsContiguous | libraries/bsg_manycore_eva.cpp:537-589 | within the reported size the NPA moves byte by byte with the EVA |
| EvaMap.StripeMustFitBank | libraries/bsg_manycore_eva.cpp:537-589 | if a stripe is larger than a bank, some address inside the size reported for a DRAM EVA does not translate |
| EvaMap.EvaRoundTrip | libraries/bsg_manycore_eva.cpp:760-800 | EVA to NPA and back, for every DRAM EVA that leads to a valid bank address |
| EvaMap.NpaRoundTripExactly | libraries/bsg_manycore_eva.cpp:760-800 | NPA to EVA and back holds iff the address fits the EVA's field and the bank |
| EvaMap.SignalReachesHost | libraries/bsg_manycore_eva.cpp:847-897 | a store to the EVA of a host address arrives there iff the address fits 16 bits |
| FinishSignal.SignalIsDelivered | libraries/bsg_manycore_cuda.cpp:351-359 | for every signal address the translation of the host's NPA gives a store whose low field is the address in the finish packet, and which reaches the host at its own address iff that fits 16 bits |
| FinishSignal.ReadySignalsArrive | libraries/bsg_manycore_cuda.cpp:1299-1299 | on a ready pod every group's signal reaches the host at the address its packet is matched by |
| RemoteRead.PackRoundTrip | libraries/bsg_manycore.cpp:940-962 | four bytes packed into a word, lowest first, come back |
| RemoteRead.SendKeepsConsistent | libraries/bsg_manycore.cpp:1074-1112 | sending keeps ids split between free and in flight, loads in flight distinct, and every sent request in flight or answered right |
| RemoteRead.AnswerKeepsConsistent | libraries/bsg_manycore.cpp:1115-1152 | any answer keeps ids split between free and in flight, loads in flight distinct, and every sent request in flight or answered right; its id and index are in range |
| RemoteRead.FreeIdIsUnused | libraries/bsg_manycore.cpp:1086-1106 | the record that a busy transmitter leaves for a free id keeps ids split between free and in flight, loads in flight distinct, and every sent request in flight or answered right |
| RemoteRead.RequestWords | libraries/bsg_manycore.cpp:1074-1112 | the request loop makes progress or the network was busy |
| RemoteRead.CollectAnswers | libraries/bsg_manycore.cpp:1115-1152 | the response loop takes every answer in flight, never reaches its error branches, and writes no word beyond the last |
| RemoteRead.ReadMemInternal | libraries/bsg_manycore.cpp:1046-1157 | terminates; on success every word is the value at its address and nothing is in flight; fails only for an unaligned address or a network error |
| EvaCopy.ChunkExtends | libraries/bsg_manycore_eva.cpp:1131-1170 | a chunk written after a prefix of the range leaves the prefix in place and changes no byte outside |
| EvaCopy.WriteMem | libraries/bsg_manycore.cpp:940-982 | writes exactly the run of bytes, and succeeds on a working network iff buffer, size and address are word aligned |
| EvaCopy.Memset | libraries/bsg_manycore.cpp:992-1028 | sets exactly the run of bytes, and succeeds on a working network iff size and address are word aligned |
| EvaCopy.ReadMem | libraries/bsg_manycore.cpp:1208-1234 | returns the run of bytes, and succeeds on a working network iff buffer, size and address are word aligned |
| EvaCopy.EvaWrite | libraries/bsg_manycore_eva.cpp:1131-1173 | on success the range holds the data and no other byte of the device changed, on failure a prefix of it; succeeds on a working network iff aligned and mapped |
| EvaCopy.EvaMemset | libraries/bsg_manycore_eva.cpp:1325-1365 | on success the range holds the value and no other byte of the device changed, on failure a prefix of it; succeeds on a working network iff aligned and mapped |
| EvaCopy.EvaRead | libraries/bsg_manycore_eva.cpp:1230-1273 | on success returns what the range holds; succeeds on a working network iff aligned and mapped |
| EvaCopy.ReadReturnsWritten | libraries/bsg_manycore_eva.cpp:1131-1273 | reading a range after writing it gives the data |
| EvaWindows.DramIsLawful | libraries/bsg_manycore_eva.cpp:537-589 | DRAM obeys the laws of the copy loops for every tile of a pod |
| EvaWindows.DmemIsLawful | libraries/bsg_manycore_eva.cpp:100-142 | a tile's data memory obeys the laws of the copy loops, and ends in unmapped addresses |
| EvaWindows.DramWriteIsExact | libraries/bsg_manycore_eva.cpp:1131-1173 | a successful write sets exactly the bytes of the range in the pod's DRAM space and no other |
| EvaWindows.DramLeadsToBank | libraries/bsg_manycore_eva.cpp:398-457 | a DRAM EVA leads to a bank of the issuing tile's pod |
| EvaWindows.DeepAddressIsLost | libraries/bsg_manycore_eva.cpp:760-800 | on a machine with one pod and banks of 512 MiB, the bank address 64 MiB does not come back from its EVA |
| EvaWindows.SmallBankMachine | libraries/bsg_manycore_eva.cpp:537-589 | a machine with banks of 16 bytes and stripes of 32, and an address inside a reported size that does not translate |
| Loader.LoadTileSegment | libraries/bsg_manycore_loader.cpp:252-308 | refused iff larger than the memory; on a working network loaded iff it has room and both parts are aligned and mapped; then memory holds the file's bytes and then zeros; whatever the outcome, only the segment's bytes change |
| Loader.LoadTilesSegment | libraries/bsg_manycore_loader.cpp:319-334 | on a working network loaded iff every tile can load it; then the image is on every tile; whatever the outcome, only the segment's bytes on these tiles change |
| Loader.SegmentsApart | libraries/bsg_manycore_loader.cpp:641-652 | segments with disjoint addresses, or data memory of different tiles, share no byte |
| Loader.SegmentLoaded | libraries/bsg_manycore_loader.cpp:625-662 | loading one more segment keeps those already in place |
| Loader.GetSegmentExactly | libraries/bsg_manycore_loader.cpp:559-600 | a segment is found iff the header table and the segment's bytes lie in the object, and its data are the object's bytes from the segment's offset on |
| Loader.LoadTileIcache | libraries/bsg_manycore_loader.cpp:344-388 | an empty segment sets tag bits and is refused; otherwise its first 4096 bytes or fewer are written, on a working network iff whole aligned words; only the icache changes |
| Loader.LoadTilesIcache | libraries/bsg_manycore_loader.cpp:400-414 | every icache holds the first bytes of the segment, on a working network iff they are whole aligned words; only icaches change |
| Loader.LoadSegments | libraries/bsg_manycore_loader.cpp:559-686 | on a working network loaded iff the object is large enough for all headers and segments, each segment to load fits and is aligned and mapped, and the last executable one can be copied to the icaches; then byte k of every segment to load is byte p_offset + k of the file, or zero beyond p_filesz, once for DRAM and on every tile for data memory, and the icaches hold the first 4096 bytes or fewer of the executable one; whatever the outcome, only bytes of segments and icaches change |
| Vcache.DecodeEncode | libraries/bsg_manycore_vcache.h:76-124 | set and way are read back from a line's address |
| Vcache.WayAddrIsNumber | libraries/bsg_manycore_vcache.h:120-124 | a line's address is 0x20000000 + (way * sets + set) * block size |
| Vcache.TargetsDiffer | libraries/bsg_manycore_vcache.h:120-132 | different lines have different targets |
| Vcache.NumberOfBank | libraries/bsg_manycore.cpp:618-625 | naming a bank by its number leads back to the bank |
| Vcache.CompleteSweep | libraries/bsg_manycore.cpp:605-632 | a sweep in order over all ways, sets and banks reaches exactly the addresses 0x20000000 + (way * sets + set) * block size of every bank of the pod, each once |
| Vcache.PodApplyToVcache | libraries/bsg_manycore.cpp:605-632 | on success exactly the addresses 0x20000000 + (way * sets + set) * block size of every bank of the pod got the operation, each once; without caches nothing is sent |
| DramRemap.MapIsJoined | libraries/bsg_manycore_memsys.c:283-308 | for DRAMSim3 and HBM2 shifts and ors put the fields byte offset, column, bank, bank group and row side by side, lowest first; other memories keep the address |
| DramRemap.MapCanBeUndone | libraries/bsg_manycore_memsys.c:283-308 | if the fields tile the low n bits, the mapping stays below 2^n and putting the fields back undoes it |
| DramRemap.MappingIsPermutation | libraries/bsg_manycore_memsys.c:283-320 | if the fields tile the low n bits, the mapping is a permutation of the addresses below 2^n |
| DramRemap.InOrderIsIdentity | libraries/bsg_manycore_memsys.c:283-320 | with the fields in the order of the mapped address the mapping is the identity |
| Matrices.DotOfBlocks | examples/cuda/sgemm_data_parallel/kernel.cpp:278-284 | the product over one more pair of blocks is the sum so far plus the blocks' own product |
| SgemmKernel.LoadBlock | examples/cuda/sgemm_data_parallel/kernel.cpp:20-50 | the scratchpad holds the block, in either layout |
| SgemmKernel.SubBlock | examples/cuda/sgemm_data_parallel/kernel.cpp:117-213 | four by four elements get the product added, the others are kept |
| SgemmKernel.AccumBlock | examples/cuda/sgemm_data_parallel/kernel.cpp:108-216 | the product of two blocks is added to a block, in either layout of the first |
| SgemmKernel.StoreBlockAndReset | examples/cuda/sgemm_data_parallel/kernel.cpp:66-96 | exactly the block's elements of the result are written, and the scratchpad block is zero again |
| SgemmGroup.OutputBlock | examples/cuda/sgemm_data_parallel/kernel.cpp:275-291 | from a zero block, writes the block of the full product and leaves a zero block |
| SgemmGroup.Tile | examples/cuda/sgemm_data_parallel/kernel.cpp:253-293 | a tile computes exactly the output blocks whose row and column leave its coordinates as remainders, each once |
| SgemmGroup.Kernel | examples/cuda/sgemm_data_parallel/kernel.cpp:225-308 | in any order of the tiles, the result's element y * stride + x is the sum of the products of row y of the first matrix and column x of the second, and other memory is unchanged |
| HarrisImages.WindowsAreSmall | examples/apps/harris_color/kernel.cpp:295-300 | windowed products of any image need eight bits |
| HarrisImages.ResponseRange | examples/apps/harris_color/kernel.cpp:530-531 | determinant and response of such windows fit 16 bits |
| HarrisImages.ShortWraps | examples/apps/harris_color/main.c:317-323 | a number stored in 16 bits is the one in range that differs by a multiple of 2^16 |
| HarrisKernel.RowsAreApart | examples/apps/harris_color/kernel.cpp:72-87 | tiles own disjoint pairs of rows |
| HarrisKernel.EveryPixelIsOwned | examples/apps/harris_color/kernel.cpp:72-87 | every pixel lies in the rows of some tile |
| HarrisKernel.NeighboursAreAdjacent | examples/apps/harris_color/kernel.cpp:89-150 | the tiles called up and down own the rows just above and below |
| HarrisKernel.ReadAround | examples/apps/harris_color/kernel.cpp:217-275 | the nine reads around a pixel, local or remote, give the image's nine pixels |
| HarrisAddresses.RemoteReadsNeighbour | examples/apps/harris_color/kernel.cpp:106-170 | the address computed for a neighbour's buffer translates to that tile and the same local address |
| HarrisKernel.GrayTile | examples/apps/harris_color/kernel.cpp:174-201 | a tile's gray buffer shows its rows of the gray image |
| HarrisKernel.SobelTile | examples/apps/harris_color/kernel.cpp:217-289 | a tile's product buffers show the products of clamped gradients |
| HarrisKernel.WindowPixel | examples/apps/harris_color/kernel.cpp:322-384 | a 16-bit sum of nine products is exact |
| HarrisKernel.CimTile | examples/apps/harris_color/kernel.cpp:305-533 | a tile's response buffer shows the corner response |
| HarrisKernel.MaximaTile | examples/apps/harris_color/kernel.cpp:541-608 | a tile writes exactly its inner pixels of the output |
| HarrisKernel.Kernel | examples/apps/harris_color/kernel.cpp:37-617 | for any order of tiles within each phase, the output is the detector's answer three pixels or more from the edges and unchanged elsewhere |
| HarrisHost.RgbToGray | examples/apps/harris_color/main.c:235-242 | the gray value of every pixel, (77 r + 150 g + 29 b) / 256 |
| HarrisHost.ApplySobelFilter | examples/apps/harris_color/main.c:245-269 | both gradients with pixels beyond an edge replaced by the nearest, without 16-bit overflow |
| HarrisHost.ClampGradients | examples/apps/harris_color/main.c:272-277 | every gradient is limited to 180 in absolute value |
| HarrisHost.CalculateProduct | examples/apps/harris_color/main.c:280-286 | scaled products, without 16-bit overflow |
| HarrisHost.WindowOperation | examples/apps/harris_color/main.c:289-314 | window sums inside, repeated at the edges |
| HarrisHost.CalculateCim | examples/apps/harris_color/main.c:317-323 | the response of every pixel, stored in 16 bits |
| HarrisHost.FindLocalMaxima | examples/apps/harris_color/main.c:326-343 | 255 exactly at peaks above the threshold |
| HarrisHost.Expected | examples/apps/harris_color/main.c:118-128 | the reference stages together give the detector's answer three pixels from the edges |
| HarrisHost.HarrisTest | examples/apps/harris_color/main.c:118-205 | kernel and reference agree on every compared pixel, for every image and order of tiles |

## Left out

- MemoryManager.AllocIsSound: sizes are unbounded numbers; the 64-bit wrap-around of the rounding for sizes near 2^64 is not modelled, since callers pass 32-bit sizes.
- Device.DeviceObject.Receive: packets with the finish value from a coordinate outside every pod are not modelled; the source would index its pods out of range.
- EvaCopy.EvaWrite: takes the address map as a function with three laws and a window; ranges of group and global EVAs are not instantiated, because they alias a tile's own memory. Fences between the words and the host are not modelled.
- Loader.LoadSegments: program headers come decoded; segments that start at group or global EVAs are not modelled.
- HarrisKernel.Kernel: tiles of one phase run one after another in any order, because each writes only its own buffers and reads only those of the phase before; a remote read is a pair of tile and offset, which `HarrisAddresses` connects to the address used. The branches for rows that are neither first nor last cannot be reached with two rows per tile.
- SgemmGroup.Kernel: the prefetch before a store has no effect on memory; floating-point rounding is not modelled.
- Vcache.PodApplyToVcache: the operation applied to a line is a recorded target; what the cache then does is hardware.
- `reserve` and `reset` of the memory manager: neither keeps the manager's invariant, and nothing shown calls them.
- The per-range cache operation: it computes a line address and then sends the operation to the original address.
- Groups that were enqueued but never launched when a program ends: their buffer addresses may be unset.
- Runtime.PodObject.LaunchGroup: errors of the platform, of symbol lookups and of the writes to the tiles themselves are not modelled; the copies of arguments and barrier words are. After a failed launch the barrier address of the group stays 0, where the source leaves it unset.
- What running kernels write to device memory: the record of a launch shows the memory at the group's start.
- Reachable.EnoughNeverStops: states a sufficient condition. Whether memory that has no hole for all waiting groups lasts depends on which of them end first and on how the free list is split then; what each single launch needs is exact.
- NPA to EVA for banks of another pod in the same columns, and the deprecated translation.
- Direct memory access backends, packet fields, tile registers, configuration ROM parsing, responders, profiling and printing.
- The legacy replicated interface and the other example programs.
