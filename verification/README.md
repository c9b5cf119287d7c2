# Model of the RymeVisor control plane, node agent, scheduler and storage services

This project models the parts of RymeVisor where several pieces of state have to stay in step,
and proves what holds of them in every run.

- **Addresses.** `Ipv4`, `Ipam`, `Gateways` and `Subnets` treat IPv4 arithmetic with real 32-bit
  wrap-around: two allocators, two gateway computations and the subnet check. `NicTable`,
  `CreateRetry` and `AddressSafety` put the allocator into the optimistic read-pick-insert-retry
  protocol over two unique indexes, with any number of concurrent calls.
- **Images.** `Puller` is the download protocol as a step system (callers, goroutines, the `active`
  map, row, partial and final file, restarts, a network that answers or cuts off at will);
  `ImageDownload` is one attempt in imperative form, `ImageRuns` what particular runs lead to.
- **Power state.** `NodeAgent` is the agent's start, persist and recover logic, `StartCommand` the
  way from a create request to a start command, `Lifecycle` the agreement between stored status,
  command queues and running processes; `Breakage`, `Provisioning` and `Draining`
  show where it ends, that created VMs keep it and what the operations come to.
- **Queries.** `VmFilter`, `NameSearch`, `VmLoading` and `Lists`: filter compilation, paging and
  batched loading.
- **Scheduling and storage.** `Jobs`, `Scheduler` and `Pools`.

Run `dafny verify dfyconfig.toml` to check everything.

## What the model found

- The subnet check accepts a subnet larger than its network (`Subnets.AcceptedSubnetLiesInsideIff`).
- Two interfaces of one VM on the same network collide with each other in every attempt unless
  other transactions interfere (`CreateRetry.QuietInsertCommitsIff`).
- The floating allocator filters by organization while the address column is unique across
  organizations (`Ipam.FloatingPickCommitsIff`), and it fails for networks stored with host bits,
  which network creation accepts (`Ipam.AllocatorsAgree`, `Ipam.AllocatorsMayDisagree`).
- An image row is briefly ready with the size it had before when the image turns out empty, and a
  partial file that is already complete cannot be finished by resuming
  (`ImageRuns.ReadySizeIsRightIff`, `ImageRuns.CompleteFileNeedsFullAnswer`).
- Power-on without a node or a startable configuration, forced reboot, snapshot restore of a VM that
  is not running and deletion of a running one break the agreement between stored status and
  processes, each exactly under the stated condition (`Lifecycle.KeepsAgreementIff`,
  `Breakage.EveryBreakHasARun`).
- VM and job pages can repeat and drop entries exactly when a page boundary falls on a tie
  (`VmFilter.PagesListAllIff`, `Jobs.PagesPartitionIff`); disk order in the two loaders depends on
  distinct order numbers (`VmLoading.BatchLoadsSameDisksIff`).
- The VM search treats `%`, `_` and backslash as pattern characters
  (`NameSearch.SearchIsContainmentIff`).
- A preferred node is taken even if it violates every other constraint
  (`Scheduler.ChoiceIsEligibleIff`, `Scheduler.NamedNodeMayViolateConstraints`).
- Deleted volumes stay on a pool's books (`Pools.UsedBytesMean`). No operation ever gives a pool a
  total (`Pools.NoTotalIsEverSet`); in a pool that was given one otherwise, clone and resize ignore it
  (`Pools.CapacityKeptIff`, `Pools.CloneMayExceedTotal`).

## Model

| member | source | states |
|---|---|---|
| `Ipv4.ContainsIsInterval` | internal/ipam/ipam.go:24-31 | Comparison after clearing the host bits, as `IPNet.Contains` does it, holds exactly for the addresses from the network to the broadcast address, and exactly for equal leading bits |
| `Ipv4.MaskedBounds` | internal/ipam/ipam.go:24-31 | For every prefix 0 to 32, clearing the host bits rounds down within 32 bits and the whole block ends at or before 2^32 |
| `Ipv4.BlocksNestOrSplit` | services/network/service.go:150-162 | A block with a longer or equal prefix lies wholly inside or wholly outside another one, and testing its network address tells which |
| `Ipam.NextAvailableIP` | internal/ipam/ipam.go:13-70 | Returns the least unused host address with the block's prefix; reports exhaustion exactly when every host is used, a malformed block exactly when it is one; the wrapping 32-bit scan terminates |
| `Ipam.PickIsLeastFree` | internal/ipam/ipam.go:34-70 | The arithmetic-free specification picks an address if and only if it is the least free one strictly between gateway and broadcast, and nothing if and only if the block is full |
| `Ipam.Scan` | internal/ipam/ipam.go:49-70 | The counter loop with 32-bit wrap-around computes that specification, also when network + 2 passes 2^32 |
| `Ipam.CollectUsed` | internal/ipam/ipam.go:34-47 | The set filled row by row is the set of addresses of all texts that parse, bare or with a prefix |
| `Ipam.FindAvailableIP` | services/network/postgres/floating_ip_repository.go:61-136 | The second allocator computes the same specification in spite of its early exit for tiny blocks, and fails for a block text with host bits, which the query's cast refuses |
| `Ipam.AllocatorsAgree` | services/network/postgres/floating_ip_repository.go:61-136 | For every block and table, run on the same addresses, both allocators succeed or both fail exactly when the block text has no host bits or the block is full, and when both succeed they return the same address, although one sees only rows inside the block |
| `Ipam.AllocatorsMayDisagree` | services/network/postgres/floating_ip_repository.go:78-85 | Concrete block text with host bits and free addresses: the interface allocator has one to give, the floating one fails |
| `Ipam.OnlyTheBlockMatters` | services/network/postgres/floating_ip_repository.go:78-84 | Used addresses outside the block have no influence on the pick |
| `Ipam.FloatingPickCommitsIff` | services/network/postgres/floating_ip_repository.go:78-84 | Because the query filters by organization while the column is globally unique, a picked address can be inserted exactly when the rows of all organizations lead to the same pick |
| `Ipam.FloatingPickMayNotCommit` | services/network/postgres/floating_ip_repository.go:78-84 | Concrete table of two organizations where the picked address cannot be inserted |
| `Ipam.IssuesInOrder` | internal/ipam/ipam.go:34-70 | Allocate-and-commit from empty issues network+2, network+3, ... in order and succeeds exactly capacity many times (2^(32-p)-3 for p at most 30, none otherwise) |
| `Ipam.ShortListLeavesRoom` | internal/ipam/ipam.go:34-70 | Pigeonhole: any used list, with repetitions and garbage, shorter than the capacity leaves an address to allocate |
| `Ipam.CapacityIsTight` | internal/ipam/ipam.go:34-70 | That bound is exact: some list of capacity length fills the block |
| `Gateways.GatewayByCarry` | services/controlplane/service.go:609-640 | The control plane's byte-wise increment yields the successor of the network address modulo 2^32, a bare address counting as /24 |
| `Gateways.GatewayByWord` | services/nodeagent/agent.go:656-687 | The agent's 32-bit computation yields the same function of every IPv4 CIDR and bare address |
| `Gateways.Increment` | services/controlplane/service.go:621-626 | The in-place carry loop leaves the buffer the recursive carry specifies |
| `Gateways.CarriedAdds` | services/controlplane/service.go:621-626 | Carrying from a byte position adds that position's place value modulo 2^32 |
| `Gateways.BytesRoundTrip` | services/nodeagent/agent.go:676-683 | Taking a word apart into big-endian bytes and assembling it again is the identity |
| `Gateways.IssuedAddressFindsItsGateway` | internal/ipam/ipam.go:29-32 | For any issued address both gateway computations give the gateway the allocator reserved, which lies in the block and is never itself issued |
| `Subnets.CreateSubnet` | services/network/service.go:131-162 | Succeeds exactly for complete requests with well-formed blocks whose network address the parent contains; each of the four errors exactly under its own condition |
| `Subnets.AcceptedSubnetLiesInsideIff` | services/network/service.go:150-162 | An accepted subnet lies inside the network exactly when its prefix is at least as long; one rejected at such a length lies wholly outside |
| `Subnets.OversizedSubnetIsAccepted` | services/network/service.go:150-162 | Concrete subnet that is accepted and reaches outside its network |
| `NicTable.CreateTx` | services/controlplane/postgres/vm_repository.go:77-90 | The insert loop of the transaction computes the all-or-nothing insert under the two unique indexes |
| `NicTable.CommitAppends` | migrations/controlplane/000003_network_isolation.up.sql:2-8 | A commit appends exactly the rows, keeps both indexes unique and stores no unparsable address |
| `NicTable.ViolationHasCause` | migrations/controlplane/000003_network_isolation.up.sql:2-8 | A unique violation is due to a row that clashes with a stored row or an earlier row of the same VM |
| `NicTable.ClashPreventsCommit` | migrations/controlplane/000003_network_isolation.up.sql:2-8 | Two clashing rows in one transaction can never both commit |
| `NicTable.DeletedRowsWereThere` | services/controlplane/postgres/vm_repository.go:286-292 | Deleting a VM leaves exactly the other VMs' rows and keeps the indexes unique |
| `NicTable.DeleteKeepsOthers` | services/controlplane/postgres/vm_repository.go:286-292 | Deleting a VM removes all its rows and keeps every other row as often as it was there |
| `NicTable.AllocateIP` | services/controlplane/postgres/ipam_repository.go:71-111 | Reading the used addresses row by row and scanning gives the least host address no stored interface of the network holds, or fails when there is none |
| `NicTable.AllocatedIsFreshHost` | services/controlplane/postgres/ipam_repository.go:71-111 | An allocated address is a host of the network's subnet and held by no stored interface of that network |
| `CreateRetry.CreateVM` | services/controlplane/service.go:284-374 | Against any interleaved transactions: the attempts are this call's own, numbered reads and inserts with MACs drawn anew for each; success is reported only when the last insert committed, otherwise the call leaves no trace; each failure has its cause; giving up takes three collisions, each (with distinct networks, fresh MACs and addresses free at the reallocations) lost to a rival that committed one of the attempt's own addresses in a window that starts after the insert before; without rivals and faults the VM is created exactly when its networks differ and have room and one of the three draws of MACs is free, with the first such draw |
| `CreateRetry.InsertWithRetry` | services/controlplane/service.go:350-374 | The retry loop: at most three inserts of rows built for this VM, every one after a fresh reallocation; success exactly with the last one committed, giving up only after three unique violations, an error only after a fault or a refused row |
| `CreateRetry.Reallocate` | services/controlplane/service.go:357-367 | After a collision every interface on a network carries the MAC drawn for the next attempt and an address read after the colliding insert, unless its network had none free since |
| `CreateRetry.BuildNics` | services/controlplane/service.go:284-347 | Each built interface carries its first MAC and what was the least free address of its network at its own read; failure means that some network had none at an operation of this call |
| `CreateRetry.CollisionNeedsRival` | services/controlplane/service.go:350-374 | With distinct networks and fresh MACs, a unique violation implies that another transaction committed that very address between the read and the insert |
| `CreateRetry.AppearsInWindow` | services/controlplane/service.go:350-374 | An address absent at a read and present at a later operation was committed by a rival transaction in between |
| `CreateRetry.QuietInsertCommitsIff` | services/controlplane/service.go:284-374 | Without outside interference an insert of built rows commits exactly when no two interfaces are on the same network and the MACs of the attempt are free |
| `CreateRetry.TwoInterfacesCollide` | services/controlplane/service.go:284-347 | Concrete quiet world in which two interfaces of one VM are given the same address and the insert fails |
| `CreateRetry.EveryAttemptIsBeaten` | services/controlplane/service.go:350-374 | With distinct networks, fresh MACs and an address free at each operation between successive inserts, every collision was lost to a rival that committed one of that attempt's own addresses after its read, which lies after the previous insert, and not after its own insert |
| `AddressSafety.NextKeepsInv` | services/controlplane/service.go:847-901 | Every step of any create, clone, retry or delete keeps: no duplicate addresses, only host addresses, also in calls under way |
| `AddressSafety.EveryRunKeepsInv` | services/controlplane/service.go:847-901 | The invariant holds after every interleaved run |
| `AddressSafety.CommittedAddressesAreSafe` | services/controlplane/service.go:350-374 | In every run two committed interfaces of a network hold different addresses, each inside the subnet and never its network, gateway or broadcast address |
| `AddressSafety.OnlyCommitsAndDeletesWrite` | services/controlplane/postgres/vm_repository.go:32-91 | The table changes only by the commit of a call's own rows, which ends the call in success, and by deletes |
| `AddressSafety.UndisturbedCreateStores` | services/controlplane/service.go:284-374 | From any state a create with a free address and MAC and nothing in between stores exactly its interface with the allocated address |
| `AddressSafety.UndisturbedRetryStores` | services/controlplane/service.go:350-374 | From any state a create or clone that lost its race and is then left alone stores its interface with the address free now and a new MAC |
| `AddressSafety.ReallocationRenews` | services/controlplane/service.go:847-901 | Reallocation renews one interface: the address its network has to give now, if any, and the MAC; a create skips interfaces without a network, a clone gives them a new MAC too |
| `AddressSafety.NoAddressEndsCreateOnly` | services/controlplane/service.go:847-866 | Without a free address a create ends unsuccessfully, a clone goes on with an interface without address |
| `AddressSafety.DefaultWithoutAddressFails` | services/controlplane/service.go:868-880 | A clone that needs the default network and gets no address there is refused by the database and stores nothing |
| `AddressSafety.AttemptsAreBounded` | services/controlplane/service.go:350-374 | In every run a create inserts at most three times and a clone at most twice |
| `ImageHash.AbsorbInPieces` | services/controlplane/image_puller.go:269-281 | Feeding the hasher in pieces equals feeding it at once |
| `Puller.AdvanceKeepsInv` | services/controlplane/image_puller.go:240-406 | Every step of a download keeps what its phase promises: file, counter and hasher at the same place of the remote body, ready rows true |
| `Puller.NextKeepsInv` | services/controlplane/image_puller.go:70-406 | Every action of callers, downloads, row deletion and restart keeps the global invariant |
| `Puller.EveryRunKeepsInv` | services/controlplane/image_puller.go:70-406 | The invariant holds after every interleaving of pull, resolve and resume callers with downloads, cut-offs and restarts |
| `Puller.OneDownloadPerImage` | services/controlplane/image_puller.go:240-254 | In every run at most one download per image is past the lock |
| `Puller.SecondDownloadReturns` | services/controlplane/image_puller.go:240-248 | In every run a second download of an image ends at the lock and touches nothing |
| `Puller.ReadyImageIsWhole` | services/controlplane/image_puller.go:343-405 | In every run a ready row has its final file present: the body itself if it starts with the qcow2 magic number (or is too short for one and its URL ends in .qcow2), else a conversion of it; with that file's checksum and, for a non-empty file, size |
| `Puller.PartialFileIsPrefix` | services/controlplane/image_puller.go:265-341 | In every run, over any number of cut-offs and resumptions, the partial file is a prefix of the remote body |
| `Puller.ConvertsUnlessMagic` | services/controlplane/image_puller.go:409-423 | A body of four bytes or more is converted exactly when they are not the magic number of qcow2, a shorter one exactly when the URL does not end in .qcow2 |
| `Puller.CallersDecide` | services/controlplane/image_puller.go:70-238 | Pull, resolve and the start-up scan leave a ready image with its file alone; a failed one is restarted by the first two, one under way only by the scan, a ready one without file by pull |
| `ImageRuns.CompleteFileNeedsFullAnswer` | services/controlplane/image_puller.go:301-311 | Once the partial file holds the whole body of an image that is not ready, every continuation without a full answer keeps the file and never makes the row ready, through any attempts, callers and restarts; with a full answer some continuation does |
| `ImageRuns.StuckIsReachable` | services/controlplane/image_puller.go:330-390 | For every non-empty body a run reaches that state: killed after the last byte and before the rename |
| `ImageRuns.ReadySizeIsRightIff` | services/controlplane/postgres/image_repository.go:204-231 | In every run a ready row has its file's size, exactly when the image cannot turn out empty; an empty one is first published with the size the row had before |
| `ImageRuns.CanBecomeReady` | services/controlplane/image_puller.go:70-406 | Any image that is not ready can be brought to ready after a restart, through whichever caller its row calls for |
| `ImageDownload.ImageFiles.Download` | services/controlplane/image_puller.go:256-405 | The imperative attempt is a run of the protocol's download goroutine (so all its invariants apply): a cut-off leaves exactly the prefix received so far, completion leaves the whole image and a row with its size and digest, a refusal leaves the files alone; interrupted and done each exactly under its condition on answer, cut-off and conversion |
| `ImageDownload.ReachedIsConsistent` | services/controlplane/image_puller.go:256-405 | Whatever a download goroutine can reach from a consistent row and files is consistent again and keeps what its phase promises |
| `ImageDownload.ImageFiles.Begin` | services/controlplane/image_puller.go:265-328 | Resuming keeps the partial file and its hash, a full answer starts over; either way file, hash and offset agree |
| `ImageDownload.ImageFiles.Copy` | services/controlplane/image_puller.go:330-334 | The copy loop appends exactly the received bytes to the file and the hasher, whatever the chunk size |
| `ImageDownload.ImageFiles.Place` | services/controlplane/image_puller.go:356-390 | A body with the qcow2 magic number (or too short, with a .qcow2 URL) is put in place as it is, any other one converted, with its own size and digest, and the partial file is gone; a failed conversion keeps the partial file |
| `ImageDownload.ImageFiles.UpdateStatus` | services/controlplane/postgres/image_repository.go:204-231 | The four statements together: the row shows the given status, size and checksum exactly when no zero or empty value meets an older one, which then stays |
| `NodeAgent.FillInPlace` | services/nodeagent/agent.go:171-199 | The loop over the shared interface slice fills in bridge, gateway, name and MAC where they were left open and nothing else, or fails exactly when an interface has neither bridge nor network |
| `NodeAgent.FilledAllTwice` | services/nodeagent/agent.go:171-199 | Filling in interface settings is idempotent and cannot fail the second time |
| `NodeAgent.BridgeOfUuid` | internal/ipam/ipam.go:111-120 | The bridge of a network is named by the first eight characters of its id, or by all of a shorter one |
| `NodeAgent.LoadAfterPersist` | services/nodeagent/agent.go:281-323 | Loading what was persisted restores the configuration with disk path and MAC replaced, through the shadowed JSON fields |
| `NodeAgent.RecoveryRebuildsMachine` | services/nodeagent/agent.go:325-368 | Starting from the persisted configuration gives the QEMU configuration of the original start and the same vm.json |
| `NodeAgent.StartVM` | services/nodeagent/agent.go:114-279 | Launches QEMU with the requested name, vCPUs, memory and type, the given disk or the default, and one interface per requested one in order with the given MAC and bridge or those filled in; fails exactly for want of interfaces, of a bridge or of any address; leaves the caller's configuration filled and writes a vm.json that records it under its own keys, with the machine's disk and first MAC |
| `NodeAgent.MachineIsRequested` | services/nodeagent/agent.go:236-256 | Whatever starts is the machine the configuration asks for |
| `StartCommand.BuildNics` | services/controlplane/service.go:284-347 | Builds one interface per request, or a primary default one, on the network asked for or the default one with an address allocated there; primary are those asked for, else the first; fails only when a network or address cannot be had |
| `StartCommand.PublishNics` | services/controlplane/service.go:533-568 | The start command carries every interface in order with its stored network, name, MAC and first address, its network's bridge and the address's gateway; none is sent exactly when the VM has no interface or one without network |
| `StartCommand.AcceptedVmStartsIff` | services/controlplane/service.go:533-568 | The start command of an accepted VM exists and passes all checks of the agent exactly when address management is configured; every interface then has a bridge and an address |
| `Lifecycle.Agent.HandleCommand` | services/nodeagent/agent.go:521-577 | An acknowledged start runs the requested machine, a failed one changes nothing; stop is never refused and takes a running machine away together with its vm.json; reboot is acknowledged only unforced and running and keeps the machine, a forced one ends it and keeps vm.json; other VMs are untouched |
| `Lifecycle.Agent.RecoverVMs` | services/nodeagent/agent.go:325-368 | The walk over VM directories starts, as its vm.json says, every machine with a vm.json and no process that can be started, and leaves all else alone |
| `Lifecycle.AgentRebuilds` | services/nodeagent/agent.go:325-368 | The agent's start function reproduces itself from its own vm.json, for every VM and configuration |
| `Lifecycle.ReplayHead` | services/nodeagent/agent.go:521-577 | Delivering the head of a queue does not change where replaying it ends, nor whether all of it succeeds |
| `Lifecycle.OnlyAcknowledgedLeaves` | services/nodeagent/agent.go:571-576 | A command leaves the queue exactly when it succeeded; a start that fails changes nothing and is kept |
| `Lifecycle.CrashThenRecoverIsIdentity` | services/nodeagent/agent.go:325-368 | A host crash leaves no process and every vm.json, and completed recovery then gives back the very same machines |
| `Lifecycle.ControlPlane.PowerOn` | services/controlplane/service.go:444-493 | Accepted exactly for stopped, paused or new VMs; stores running, assigns a node if there was none and queues the start command if there is a node and a configuration; else changes nothing |
| `Lifecycle.ControlPlane.PowerOff` | services/controlplane/service.go:642-682 | Accepted exactly for running or paused VMs or when forced; stores stopped and queues the stop command on the VM's node; else changes nothing |
| `Lifecycle.ControlPlane.Reboot` | services/controlplane/service.go:684-723 | Accepted exactly for running VMs or when forced; stores running and queues the reboot command on the VM's node; else changes nothing |
| `Lifecycle.ControlPlane.Delete` | services/controlplane/service.go:424-442 | Accepted exactly for stopped VMs or when forced; removes the row and sends no command |
| `Lifecycle.ControlPlane.Restore` | services/controlplane/service.go:914-949 | Accepted for every stored VM; stores running and sends no command |
| `Lifecycle.SendKeepsIff` | services/controlplane/service.go:444-493 | Updating a row and sending a command keeps agreement exactly when the command will succeed and leave the VM as the row says |
| `Lifecycle.RowAloneKeepsIff` | services/controlplane/service.go:914-949 | A status change without a command keeps agreement exactly when it does not change whether the VM is stored as running |
| `Lifecycle.KeepsAgreementIff` | services/controlplane/service.go:424-723 | Every operation keeps agreement exactly when a condition on the state before it holds: power-on needs a node and a startable configuration, forced reboot never keeps it, restore needs a running VM, delete one that is not running; all else always keeps it |
| `Lifecycle.SafeRunsAgree` | services/controlplane/service.go:424-723 | After every run of such operations, deliveries and crashes with recovery, replaying the pending commands leaves a process exactly for the VMs stored as running |
| `Breakage.EveryBreakHasARun` | services/controlplane/service.go:424-723 | With the real agent, for each breaking operation a concrete run from the empty system that it ends in disagreement, and a safe run that has a VM running |
| `Provisioning.PowerOnIsSafeIff` | services/controlplane/service.go:444-568 | For a VM whose interfaces CreateVM built, with a node at hand, power-on keeps agreement exactly when address management is configured |
| `Lifecycle.DrainedNodeAgrees` | services/nodeagent/agent.go:325-577 | On a drained node the live processes are those of the VMs stored as running there, and a crash with completed recovery changes nothing |
| `Draining.PowerOffStops` | services/controlplane/service.go:642-682 | After every safe run a power-off of a running VM, once its node has handled its commands, leaves the VM stored as stopped without process and vm.json and all others as they were to be |
| `Draining.PowerOnStarts` | services/controlplane/service.go:444-493 | After every safe run a power-on of a VM at rest with a startable configuration, once drained, leaves it stored as running on its node with the requested machine alive and all others as they were to be |
| `Draining.RebootKeepsMachine` | services/controlplane/service.go:684-723 | After every safe run an unforced reboot of a running VM, once drained, leaves every machine of the node as it was to be |
| `Draining.DrainsToReplay` | services/nodeagent/agent.go:498-577 | Handling commands one by one until the queue is empty ends where replaying the queue ends |
| `Provisioning.MachineHasStoredNics` | services/controlplane/service.go:533-568 | The machine started from the command for a VM's interfaces has one QEMU interface for each, in order, with the stored MAC on the bridge of its network |
| `VmLoading.BatchLoadRelated` | services/controlplane/postgres/vm_repository.go:202-259 | Handing rows out through the map appends to every VM its own rows in query order and nothing else |
| `VmLoading.LoadRelated` | services/controlplane/postgres/vm_repository.go:314-359 | The per-VM loader appends all returned rows in order |
| `VmLoading.BatchLoadsSameDisks` | services/controlplane/postgres/vm_repository.go:209-230 | With distinct disk orders the batched loader gives a VM the same disk sequence as the per-VM loader, whatever answers the two queries give |
| `VmLoading.BatchLoadsSameDisksIff` | services/controlplane/postgres/vm_repository.go:209-230 | Distinct disk orders are exactly the condition under which the two loaders are sure to agree |
| `VmLoading.BatchLoadsSameNics` | services/controlplane/postgres/vm_repository.go:232-256 | Both loaders give a VM the same interfaces, equally often |
| `VmFilter.List` | services/controlplane/postgres/vm_repository.go:114-175 | For every filter both statements select exactly the rows matching all non-empty fields, placeholders read 1, 2, ..., n and each is bound once, LIMIT and OFFSET to the clamped page |
| `VmFilter.CompileWhere` | services/controlplane/postgres/vm_repository.go:115-144 | The clause list and arguments grown step by step select exactly the matching rows, NULL columns matching nothing |
| `VmFilter.PagesAreTheMatches` | services/controlplane/postgres/vm_repository.go:153-175 | Over a fixed order, successive pages concatenate to all matching rows in that order |
| `VmFilter.PagesListAllIff` | services/controlplane/postgres/vm_repository.go:163-175 | With ties on the creation time broken anew by every query, pages show every match once and newest first exactly when no page boundary separates equal times |
| `NameSearch.SearchIsContainmentIff` | services/controlplane/postgres/vm_repository.go:139-143 | The search finds exactly the names that contain the text, case ignored, if and only if the text has no `%`, `_` or backslash |
| `Lists.PagesMakeAnOrderIff` | services/scheduler/postgres/scheduler_repository.go:64-78 | Pages cut from independently sorted listings form one sorted listing of everything exactly when no boundary separates equal keys |
| `Lists.PagesConcatenate` | services/controlplane/postgres/vm_repository.go:153-161 | Pages of one list concatenate to its prefix and finally to all of it |
| `Lists.SortedOrderIsUniqueIff` | services/scheduler/postgres/scheduler_repository.go:64-66 | A sorted listing of different elements is unique exactly when the keys differ |
| `Jobs.SchedulerRepository.List` | services/scheduler/postgres/scheduler_repository.go:53-79 | For any map iteration order and any order of ties: a page of a complete listing by descending priority, and the total |
| `Jobs.SchedulerRepository.Collect` | services/scheduler/postgres/scheduler_repository.go:57-62 | The loop over the map collects exactly the node's jobs, each once |
| `Jobs.ListJobs` | services/scheduler/handler/handler.go:92-105 | The handler's bounds make every request a legal page of at most 100 jobs |
| `Jobs.PagesPartitionIff` | services/scheduler/postgres/scheduler_repository.go:53-79 | Separately fetched pages show every job once by descending priority, whatever the iteration orders, exactly when no page boundary separates equal priorities |
| `Jobs.DistinctPrioritiesPartition` | services/scheduler/postgres/scheduler_repository.go:53-79 | With pairwise distinct priorities the pages make up the one and only listing |
| `Scheduler.Schedule` | services/scheduler/service.go:38-77 | Records and returns a node of greatest score among all that qualify, which shows every required label text, none to avoid, and a GPU if asked for, or is exactly the first node of the preferred name; each error exactly with its cause and without a change to the jobs |
| `Scheduler.HeadIsBest` | services/scheduler/service.go:59-64 | However ties fall, the head of the sorted candidates has the greatest score of all qualifying nodes |
| `Scheduler.FilterNodes` | services/scheduler/service.go:87-109 | The candidates are exactly the qualifying nodes |
| `Scheduler.NodeMatchesConstraints` | services/scheduler/service.go:111-147 | True exactly when the node has, for every required `key=value` the key with that value and for every bare key the key, for no text to avoid likewise, and a GPU if asked for |
| `Scheduler.CarriesIff` | services/scheduler/service.go:114-124 | Splitting and comparing a label text amounts to: `key=value` asks for the key with that value, `key=` and `key` for the key |
| `Scheduler.CutSplits` | services/scheduler/service.go:114-119 | Label text splits at its first `=`; without one it is a key alone |
| `Scheduler.CalculateScore` | services/scheduler/service.go:165-200 | Ten points a CPU, one a MiB, fifty a GPU, five for each VM short of a hundred, twenty-five for each preferred label text the node shows; negative quantities count nothing; over exact rationals |
| `Scheduler.ScoreRespectsDominance` | services/scheduler/service.go:165-200 | A node at least as good in every respect never scores lower, and strictly higher with fewer running VMs |
| `Scheduler.DominatedNodeIsNotChosen` | services/scheduler/service.go:38-77 | A node dominated by a qualifying one with fewer running VMs is never chosen |
| `Scheduler.NamedNodeOrNone` | services/scheduler/service.go:92-99 | A preferred node is the only possible choice and is chosen exactly when the registry lists it |
| `Scheduler.ChoiceIsEligibleIff` | services/scheduler/service.go:87-109 | Every possible choice meets the constraints exactly when no node is preferred or the preferred one meets them |
| `Scheduler.NamedNodeMayViolateConstraints` | services/scheduler/service.go:92-99 | Concrete registry whose preferred node lacks the required label and the GPU, carries the label to avoid, and is chosen |
| `Pools.StorageService.CreateVolume` | services/storage/service.go:76-133 | Stores an available volume of the asked name, pool and size and adds its size to the pool, or leaves everything as it was, also when qemu-img fails after the row was inserted; each error with its cause |
| `Pools.StorageService.DeleteVolume` | services/storage/service.go:149-169 | Removes the volume and leaves the pool untouched; refused exactly when it is missing, or in use and not forced |
| `Pools.StorageService.ResizeVolume` | services/storage/service.go:171-210 | Stores the new size and nothing else of the volume, moves its pool's used bytes with 64-bit wrap-around and clamp and no other pool; each error exactly with its cause |
| `Pools.StorageService.CloneVolume` | services/storage/service.go:212-261 | Stores an available volume of the new name with the source's pool and size and adds that size to the pool, or leaves everything as it was; each error exactly with its cause |
| `Pools.StorageService.CreatePool` | services/storage/service.go:32-66 | Stores a new pool without total and with nothing used; each error exactly with its cause |
| `Pools.LiveWithout` | services/storage/service.go:149-169 | The sum of a pool's volumes does not depend on the order of adding |
| `Pools.LiveAfter` | services/storage/service.go:76-261 | Each operation changes the live bytes of every pool by exactly what it adds minus what it deletes |
| `Pools.UsedAfter` | services/storage/service.go:194-202 | The booked bytes change by the same amount up to 64-bit wrap-around; the clamp at zero never fires |
| `Pools.StepBalancesIff` | services/storage/service.go:76-261 | One operation keeps used = live + deleted for a pool exactly when the sum stays below 2^63 |
| `Pools.EveryRunBalances` | services/storage/service.go:76-261 | Over every run without such an overflow, used bytes are the live bytes plus the sizes volumes had when deleted |
| `Pools.UsedBytesMean` | services/storage/service.go:149-169 | From an empty service, used bytes equal live bytes exactly when no volume of the pool was ever deleted |
| `Pools.DeletedBytesStay` | services/storage/service.go:149-169 | Concrete run after which a pool without volumes has bytes in use |
| `Pools.CapacityKeptIff` | services/storage/service.go:76-261 | In a pool with a total, short of overflow: a create keeps to it, a clone exactly when the source is no larger than total minus used, a resize exactly when the volume grows by no more than that |
| `Pools.CloneMayExceedTotal` | services/storage/service.go:212-261 | Concrete pool with a total that an accepted clone exceeds |
| `Pools.NoTotalIsEverSet` | services/storage/service.go:49-56 | In every run from pools without total, no pool gets one, so the capacity test never rejects a volume |

## Left out

- HTTP handlers, gateway proxy, websockets, configuration and logging; only the page bounds of the
  scheduler's list handler are modelled.
- SQL text and the database driver: tables are sequences and maps, transactions and the two unique
  indexes are given. Database errors are modelled where the code reacts to them (VM creation) and
  otherwise taken not to happen. Malformed UUID text in a filter, which the database rejects, is not
  modelled.
- The message broker: one first-in first-out queue per node with acknowledgement; no limits or ageing.
- QEMU, qemu-img, genisoimage and `ip`: qemu-img may fail in `Puller`, `ImageDownload` and `Pools`;
  in `NodeAgent` and `Lifecycle` foreign tools succeed.
- IPv6, IPv4-mapped blocks and string parsing inside Go's `net` package: address texts enter as the
  result of parsing. Masks are modelled as repeated halving, not as bit vectors.
- SHA-256 is an arbitrary incremental digest with 64-character output; MAC generation is a parameter,
  fresh where a lemma says so.
- `Puller` assumes one process, an immutable body and one URL per image id, successful row writes and
  local reads, and no deletion of image files from outside. A body that ends early without an error is
  not distinguished from a complete one. That a download is ever resumed is not claimed: the resume
  scan reads only the default page of 20 images.
- `Lifecycle` assumes that recovery finishes before the next command is handled and that calls on one
  VM come one at a time. Guest shutdown, disk commands and a failed command that is delivered again
  are outside the claim. `RestoreSnapshot` stands for restoring backups too.
- `CreateRetry` and `AddressSafety` take the subnet a network allocates from as fixed.
- Pagination offsets are unbounded integers; page times page size is taken to fit the machine's.
- Scheduler scores are exact rationals instead of floating point. Whether a VM fits its node is not
  modelled because the scheduler does not look at it.
- `Pools` runs are sequential; concurrent updates of one pool row can lose bytes and are not modelled.
- Volume and VM snapshots, backups, flavors, keypairs, the image catalog, firewall rules, host metrics
  and the status reconciliation loop: easy or finite claims only.
