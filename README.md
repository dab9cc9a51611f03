# northport kernel core, modelled in Dafny

This project models the core of the northport kernel and proves properties about it. It covers these parts of the kernel:

- the VFS-backed virtual-memory driver: range queries, eager attach, fault-time map-ahead and detach against a hardware address-translation (HAT) layer;
- the flag conversions of the VM driver interface;
- RISC-V trap decoding and `stvec` setup;
- the per-core interrupt router;
- the x86 I/O APIC and local APIC register encodings and drivers;
- PCI configuration-space addressing;
- the driver manager's registries of manifests, device descriptors, instances and APIs;
- the VFS bootstrap that finds and unpacks the initdisk;
- the per-core debug log with its early-output table;
- the early kernel log;
- the small vector types of the system library.

There is one module per source file:

- Pure encodings are functions with contracts.
- Objects whose fields the source updates are classes with `modifies` frames:
  - `VmContext` and `VfsVmDriver`;
  - `InterruptRouter`;
  - `IoApic` and `LocalApic`;
  - `DriverManager`;
  - `Vfs`;
  - `Logger`;
  - `Logging`.
- Each loop is a method proved against a specification function.

The intrusive red-black trees the kernel uses (`sl::RBTree`) are modelled once, in `OrderedTree`, as an ordered binary tree with map semantics. Hardware access is modelled as follows:

- Memory-mapped registers and CSRs are fields. Reads and writes of them are map updates.
- Responses from collaborators outside the core arrive as parameters. These are image loading, a driver's `Event` result, the file cache and the mount result.

## Model

| member | source | states |
|---|---|---|
| VmDriverFlags.ConvertFlags | kernel/include/memory/virtual/VmDriver.h:15-28 | the HAT write/execute/user flags are present exactly when the VM flag of the same name is, and no other HAT flag is produced |
| VmDriverFlags.ConvertFlagsIgnoresOthers | kernel/include/memory/virtual/VmDriver.h:19-27 | guard and MMIO flags have no effect on the conversion |
| VmDriverFlags.ConvertFlagsUnion | kernel/include/memory/virtual/VmDriver.h:15-28 | converting a union of flag sets is the union of the conversions |
| VmDriverFlags.DriverTypeValue | kernel/include/memory/virtual/VmDriver.h:42-50 | Anon is 1 and Kernel is 2, each strictly between 0 and the enum count |
| VmDriverFlags.DriverTypeOf | kernel/include/memory/virtual/VmDriver.h:42-50 | 1 names Anon, 2 names Kernel, and a raw value names a driver type exactly when it lies strictly between 0 and the count |
| VmDriverFlags.DriverTypeNumbering | kernel/include/memory/virtual/VmDriver.h:42-50 | Anon is 1 and Kernel is 2, the numbering is a bijection between driver types and the values 1..count-1, and 0 names none |
| VfsVm.VmContext.Map | kernel/memory/virtual/VfsVmDriver.cpp:52-53 | a HAT map request succeeds exactly when the address was unmapped, and the HAT becomes the old HAT with the request applied |
| VfsVm.VmContext.Unmap | kernel/memory/virtual/VfsVmDriver.cpp:164-165 | a HAT unmap request succeeds exactly when the address was mapped, and the address leaves the HAT |
| VfsVm.ApplyMapsKeys | kernel/memory/virtual/VfsVmDriver.cpp:52-53 | after a sequence of map requests the mapped addresses are the old ones plus the requested ones |
| VfsVm.ApplyCallsAppend | kernel/memory/virtual/VfsVmDriver.cpp:42-57 | applying two request sequences one after the other is applying their concatenation |
| VfsVm.Query | kernel/memory/virtual/VfsVmDriver.cpp:60-85 | a query succeeds exactly for an existing file node; a success reports the cache's HAT mode and granule alignment, and a length that is the request rounded up to the granule, plus room for two guard granules (one at each end) when the range is guarded |
| VfsVm.QueryLengthIsLeast | kernel/memory/virtual/VfsVmDriver.cpp:79-83 | the reported length is the least granule multiple that covers the request |
| VfsVm.EagerRunShape | kernel/memory/virtual/VfsVmDriver.cpp:136-144 | the eager map requests cover consecutive granules from the range base, each mapping the cache unit of its file offset with the range's flags |
| VfsVm.EagerRunBound | kernel/memory/virtual/VfsVmDriver.cpp:136-144 | the eager walk maps no more granules than fit in the rounded-up length |
| VfsVm.EagerRunComplete | kernel/memory/virtual/VfsVmDriver.cpp:136-144 | when every unit is cached, the eager walk covers the whole length |
| VfsVm.FaultWalkFor | kernel/memory/virtual/VfsVmDriver.cpp:38-47 | the fault window starts at the faulting address rounded down to the granule, stays inside the range and is at most the map-ahead limit long |
| VfsVm.FaultRunShape | kernel/memory/virtual/VfsVmDriver.cpp:42-55 | the fault-time map requests cover consecutive granules from the window start; a good fault has covered the whole window, and a bad one stops at a unit boundary inside the window whose unit is not cached |
| VfsVm.FaultRunBound | kernel/memory/virtual/VfsVmDriver.cpp:42-55 | the fault walk maps no more granules than the window holds |
| VfsVm.HandleFaultWindow | kernel/memory/virtual/VfsVmDriver.cpp:38-55 | the map-ahead window of a fault contains the faulting address and lies inside its range |
| VfsVm.FaultUnitPerGranule | kernel/memory/virtual/VfsVmDriver.cpp:44-53 | for cache units a whole number of granules long, the k-th granule a fault maps, at step offset s, is backed by the unit the cache serves at the last unit boundary AlignDown(s, unitSize), and its physical address is that unit's base plus s % unitSize |
| VfsVm.UnmapCalls | kernel/memory/virtual/VfsVmDriver.cpp:161-167 | detach issues one unmap request per granule address, in order |
| VfsVm.GranuleAddrsShape | kernel/memory/virtual/VfsVmDriver.cpp:161-167 | detach visits every granule address of the range once, in increasing order |
| VfsVm.UnmapCallsEffect | kernel/memory/virtual/VfsVmDriver.cpp:161-167 | the unmap requests remove exactly the visited addresses from the HAT |
| VfsVm.EagerAttachDetachResident | kernel/memory/virtual/VfsVmDriver.cpp:136-167 | after an eager attach, detach counts exactly the granules attach mapped |
| VfsVm.EagerAttachDetachHat | kernel/memory/virtual/VfsVmDriver.cpp:136-167 | detach after an eager attach of an unmapped range gives back the HAT attach started from |
| VfsVm.EagerCallsAreGranules | kernel/memory/virtual/VfsVmDriver.cpp:136-167 | every address eager attach maps is one of the granule addresses detach unmaps |
| VfsVm.VfsVmDriver.Init | kernel/memory/virtual/VfsVmDriver.cpp:13-19 | the fault handler is enabled exactly when its feature is requested |
| VfsVm.VfsVmDriver.Attach | kernel/memory/virtual/VfsVmDriver.cpp:99-147 | attach succeeds exactly for an existing file node, with offset = the argument's offset modulo the granule; with the fault handler enabled and backing not forced it maps nothing, otherwise it maps the eager walk and grows the resident size by what it mapped; the working size grows by the range length minus that offset |
| VfsVm.VfsVmDriver.MapEagerly | kernel/memory/virtual/VfsVmDriver.cpp:136-144 | issues exactly the eager map requests and charges one granule per request |
| VfsVm.VfsVmDriver.HandleFault | kernel/memory/virtual/VfsVmDriver.cpp:21-58 | without a file cache the fault is refused and nothing changes; otherwise it issues the fault-walk requests and is good exactly as the walk says |
| VfsVm.VfsVmDriver.FaultLoop | kernel/memory/virtual/VfsVmDriver.cpp:42-57 | issues the fault-walk requests and charges one granule each |
| VfsVm.VfsVmDriver.Detach | kernel/memory/virtual/VfsVmDriver.cpp:149-171 | detach always succeeds, unmaps every granule of the range, drops the working size by the range length minus the range's offset and the resident size by the granules that were mapped |
| VfsVm.VfsVmDriver.UnmapGranules | kernel/memory/virtual/VfsVmDriver.cpp:161-167 | issues the granule unmap requests and discounts exactly the mapped ones |
| VfsVm.AttachThenDetach | kernel/memory/virtual/VfsVmDriver.cpp:99-171 | an eager attach followed by a detach of the same range leaves the HAT and the statistics as they were |
| RiscvTrap.CauseCode | kernel/arch/riscv64/Interrupts.cpp:35-36 | the interrupt bit is cleared and nothing else changes |
| RiscvTrap.PageFaultFlags | kernel/arch/riscv64/Interrupts.cpp:59-71 | cause 12 is an execute fault, 13 a read, 15 a write, and the fault is a user fault exactly when the previous privilege was user |
| RiscvTrap.DecodeTrap | kernel/arch/riscv64/Interrupts.cpp:38-78 | each dispatch branch is taken exactly when its cause matches: IPI, timer (installed or not), external, other interrupt, page fault, other exception |
| RiscvTrap.PageFaultAccessExclusive | kernel/arch/riscv64/Interrupts.cpp:62-68 | a page fault carries at most one access kind, and none for the reserved cause 14 |
| RiscvTrap.StvecValue | kernel/arch/riscv64/Interrupts.cpp:17-18 | the mode bits of stvec are cleared to direct mode and the address bits are kept |
| RiscvTrap.StvecAligned | kernel/arch/riscv64/Interrupts.cpp:14-18 | an aligned trap entry is loaded unchanged |
| RiscvTrap.Hart.LoadStvec | kernel/arch/riscv64/Interrupts.cpp:12-22 | stvec holds the trap entry and the supervisor interrupt enables are set |
| RiscvTrap.Hart.TrapDispatch | kernel/arch/riscv64/Interrupts.cpp:29-82 | the run level becomes interrupt handler, the frame's vector loses its interrupt bit, the decoded action is taken, and only an interrupt's own pending bit is cleared |
| RiscvTrap.SipClearOnlyOwnBit | kernel/arch/riscv64/Interrupts.cpp:57 | clearing a pending bit leaves every other pending bit unchanged |
| InterruptRouting.FirstRouting | kernel/interrupts/Router.cpp:15-32 | the routing found is the one registered for the core, and none is found exactly when no routing has that core |
| InterruptRouting.LowestFree | kernel/interrupts/Router.cpp:104-112 | the vector chosen is the lowest unused vector of the allocation window, and none is chosen exactly when the window is full |
| InterruptRouting.DispatchDecision | kernel/interrupts/Router.cpp:78-88 | an unrouted vector is dropped; a routed one queues its DPC exactly when it has one and its callback (if any) asks for it |
| InterruptRouting.InterruptRouter.InitCore | kernel/interrupts/Router.cpp:57-67 | a fresh, empty routing for the core is appended and becomes the core's routing |
| InterruptRouting.InterruptRouter.GetRouting | kernel/interrupts/Router.cpp:15-32 | returns the first routing registered for the core |
| InterruptRouting.InterruptRouter.FindRoute | kernel/interrupts/Router.cpp:34-51 | returns the route stored under the vector in the core's tree, or none |
| InterruptRouting.InterruptRouter.RoutedVectorsDistinct | kernel/interrupts/Router.cpp:104-111 | two different keys of one routing hold different routes with different vectors |
| InterruptRouting.InterruptRouter.Link | kernel/interrupts/Router.cpp:110 | inserting a route stores it under its vector and leaves every other routing alone |
| InterruptRouting.InterruptRouter.Unlink | kernel/interrupts/Router.cpp:155 | removing a route deletes its vector from its routing and leaves every other routing alone |
| InterruptRouting.InterruptRouter.LinkedOnce | kernel/interrupts/Router.cpp:110-155 | a linked route appears exactly once, in its own core's routing, under its own vector |
| InterruptRouting.InterruptRouter.AddRoute | kernel/interrupts/Router.cpp:91-121 | a route without affinity goes to the local core; it succeeds exactly when that core has a routing with a free vector, and then holds the lowest free vector |
| InterruptRouting.InterruptRouter.AddOn | kernel/interrupts/Router.cpp:103-113 | the route takes the lowest free vector of the window, or stays unassigned when none is free |
| InterruptRouting.InterruptRouter.FreeVector | kernel/interrupts/Router.cpp:104-112 | the search loop finds exactly the lowest free vector |
| InterruptRouting.InterruptRouter.ClaimRoute | kernel/interrupts/Router.cpp:123-145 | a claim succeeds exactly when the core has a routing and the vector is free; a failed claim leaves the route without affinity |
| InterruptRouting.InterruptRouter.ClaimOn | kernel/interrupts/Router.cpp:132-142 | the route is inserted under the vector exactly when the vector was free |
| InterruptRouting.InterruptRouter.RemoveRoute | kernel/interrupts/Router.cpp:147-164 | removal takes the route out of its core's tree and resets its core and vector |
| InterruptRouting.InterruptRouter.Dispatch | kernel/interrupts/Router.cpp:69-89 | the outcome is the dispatch decision for the route found under the vector on the local core |
| InterruptRouting.FirstRoutingAppend | kernel/interrupts/Router.cpp:57-67 | registering a routing for a new core makes it that core's routing |
| OrderedTree.Insert | kernel/interrupts/Router.cpp:110 | insertion keeps the tree ordered and stores the value under its key |
| OrderedTree.Remove | kernel/interrupts/Router.cpp:155 | removal keeps the tree ordered and deletes exactly the key |
| OrderedTree.Find | kernel/drivers/DriverManager.cpp:492-505 | the ordered descent finds a value exactly when the key is present, and finds the stored value |
| IoApicDevice.RedirectRaw | kernel/devices/IoApic.cpp:9-13 | the redirect entry holds destination, vector, trigger and polarity in their fields, starts masked, and sets no other bit |
| IoApicDevice.WithMask | kernel/devices/IoApic.cpp:15-20 | the mask bit is set as asked and every other bit is kept |
| IoApicDevice.RedirectEntry.Set | kernel/devices/IoApic.cpp:9-13 | the entry becomes the encoded redirect |
| IoApicDevice.RedirectEntry.SetMask | kernel/devices/IoApic.cpp:15-20 | only the mask bit changes |
| IoApicDevice.IsMasked | kernel/devices/IoApic.cpp:22-25 | an entry is masked exactly when its bit 16 is set |
| IoApicDevice.MaskFixed | kernel/devices/IoApic.cpp:15-25 | setting the mask to the value the entry already has changes nothing |
| IoApicDevice.RedirectEntry.IsMaskedEntry | kernel/devices/IoApic.cpp:22-25 | reads the mask SetMask writes: setting it back leaves the entry unchanged |
| IoApicDevice.MaxRedirectField | kernel/devices/IoApic.cpp:45-46 | the field is bits 16-23 of the version register |
| IoApicDevice.RedirectCount | kernel/devices/IoApic.cpp:45-46 | the redirect count is between 1 and 256 |
| IoApicDevice.Combine | kernel/devices/IoApic.cpp:214 | the two register halves become the low and high words of the entry |
| IoApicDevice.CombineWords | kernel/devices/IoApic.cpp:214 | splitting an entry into words and combining them gives it back |
| IoApicDevice.ReadRedirectValue | kernel/devices/IoApic.cpp:202-217 | a pin past the redirect count reads 0; otherwise the entry is combined from its two registers |
| IoApicDevice.RedirectRoundTrip | kernel/devices/IoApic.cpp:178-217 | reading back a written redirect gives the written entry |
| IoApicDevice.AdjacentRedirectsShareRegister | kernel/devices/IoApic.cpp:196-197 | writing pin p+1 overwrites the high register of pin p, because redirects are placed two registers apart from base+pin |
| IoApicDevice.IoApic.WriteReg | kernel/devices/IoApic.cpp:27-31 | one register is written and nothing else changes |
| IoApicDevice.IoApic.ReadReg | kernel/devices/IoApic.cpp:33-37 | returns the register's value |
| IoApicDevice.IoApic.Init | kernel/devices/IoApic.cpp:40-49 | records the address, id and GSI base, and takes the redirect count from the version register |
| IoApicDevice.IoApic.WriteRedirect | kernel/devices/IoApic.cpp:178-200 | a redirect is written only when the pin is in range and not an NMI source; otherwise the registers are unchanged |
| IoApicDevice.IoApic.WriteModifierRedirect | kernel/devices/IoApic.cpp:171-176 | writes the redirect encoded from the modifier's GSI, trigger mode and polarity |
| IoApicDevice.IoApic.ReadRedirect | kernel/devices/IoApic.cpp:202-217 | returns the redirect value of the pin |
| IoApicDevice.DecodePolarity | kernel/devices/IoApic.cpp:89-94 | active low when bit 1 is set, active high when only bit 0 is set, default when neither is set |
| IoApicDevice.DecodeTrigger | kernel/devices/IoApic.cpp:96-101 | level when bit 3 is set, edge when only bit 2 is set, default when neither is set |
| IoApicDevice.DecodeAgreesWithAcpi | kernel/devices/IoApic.cpp:89-124 | the decode agrees with the ACPI MPS flag encoding wherever that encoding is defined |
| IoApicDevice.MadtListsExact | kernel/devices/IoApic.cpp:75-127 | the overrides, the NMI sources and the controller configurations are exactly the MADT entries of their kind |
| IoApicDevice.TranslateToGsi | kernel/devices/IoApic.cpp:157-169 | an IRQ with no override maps to itself with default settings; otherwise the first override for it is used |
| IoApicDevice.OwnerIndex | kernel/devices/IoApic.cpp:143-155 | the owner is the last controller whose GSI base is at most the GSI |
| IoApicDevice.OwnerOwnsGsi | kernel/devices/IoApic.cpp:143-155 | for controllers sorted by base, the owner's base is at most the GSI and every later base is above it |
| IoApicDevice.OwnerIndexUnique | kernel/devices/IoApic.cpp:143-155 | the owner index is the only index with that property |
| IoApicDevice.ScanMadt | kernel/devices/IoApic.cpp:69-134 | the scan produces exactly the overrides, the NMI sources and one fresh controller per I/O APIC entry |
| IoApicDevice.IoApicSystem.ApplyNmis | kernel/devices/IoApic.cpp:137-138 | applying the NMI sources leaves every controller's registers unchanged, since each NMI pin is refused |
| IoApicDevice.IoApicSystem.InitAll | kernel/devices/IoApic.cpp:55-141 | with no MADT all three lists are empty; otherwise the controllers match the table's I/O APIC entries in order, and the overrides and NMI sources are the table's, in order |
| IoApicDevice.IoApicSystem.Global | kernel/devices/IoApic.cpp:143-155 | returns the controller at the owner index of the GSI |
| LocalApicDevice.LvtMaskedEntry | kernel/devices/LApic.cpp:9-12 | the vector-only LVT entry holds the vector, is masked and sets nothing else |
| LocalApicDevice.LvtEntry | kernel/devices/LApic.cpp:19-22 | the LVT entry holds vector, delivery mode, polarity and trigger in their fields, starts masked, and sets nothing else |
| LocalApicDevice.LvtEntryActiveHigh | kernel/devices/LApic.cpp:14-17 | the three-argument form is exactly the four-argument one with active-high polarity: vector, mode and trigger in their fields, polarity clear, masked |
| LocalApicDevice.LvtTimerEntry | kernel/devices/LApic.cpp:24-28 | the timer entry holds vector and timer mode, is masked and sets nothing else |
| LocalApicDevice.IcrPacket | kernel/devices/LApic.cpp:30-33 | the ICR holds vector, delivery mode, trigger and destination in their fields and sets no other bit |
| LocalApicDevice.LvtMaskWrite | kernel/devices/LApic.cpp:100-107 | as written: the mask bit follows the request, and every other bit is set |
| LocalApicDevice.LvtMaskWriteIgnoresCurrent | kernel/devices/LApic.cpp:102-103 | as written, the value written does not depend on the register's previous contents |
| LocalApicDevice.LvtMaskWriteClobbersEntry | kernel/devices/LApic.cpp:103 | unmasking the LVT entry for vector 0x20 as written turns its vector into 0xFF and sets its mode, polarity and trigger bits |
| LocalApicDevice.LvtMaskUpdate | kernel/devices/LApic.cpp:100-107 | corrected: the mask bit follows the request and every other bit keeps its value |
| LocalApicDevice.ApicBase | kernel/devices/LApic.cpp:56 | the base address is the MSR with its low 12 bits cleared |
| LocalApicDevice.ApicIdOf | kernel/devices/LApic.cpp:57 | the APIC id is the top byte of the id register |
| LocalApicDevice.LocalApic.Init | kernel/devices/LApic.cpp:49-88 | the base address and id come from the MSR and the id register, and the spurious vector register gets the vector with the software-enable bit |
| LocalApicDevice.LocalApic.WriteReg | kernel/devices/LApic.cpp:35-36 | one register is written and nothing else changes |
| LocalApicDevice.LocalApic.ReadReg | kernel/devices/LApic.cpp:38-39 | returns the register's value |
| LocalApicDevice.LocalApic.SendEoi | kernel/devices/LApic.cpp:90-93 | writes 0 to the EOI register and nothing else |
| LocalApicDevice.LocalApic.IsBsp | kernel/devices/LApic.cpp:95-98 | the core is the bootstrap processor exactly when bit 8 of the APIC base MSR is set |
| LocalApicDevice.LocalApic.SetLvtMasked | kernel/devices/LApic.cpp:100-107 | the LVT register gets the value as written: the requested mask bit with every other bit set; nothing else changes |
| LocalApicDevice.LocalApic.GetLvtMasked | kernel/devices/LApic.cpp:109-112 | reports whether bit 16 of the LVT register is set |
| LocalApicDevice.LocalApic.MaskRoundTrip | kernel/devices/LApic.cpp:100-112 | reading the mask after setting it gives the value set, and every other bit of the entry is left set |
| PciAddressing.CreateLegacy | kernel/include/devices/PciBridge.h:25-30 | the legacy address carries the legacy tag, bus, device, function and dword-aligned offset in their fields and nothing in bits 24-31 |
| PciAddressing.CreateLegacyIsLegacy | kernel/include/devices/PciBridge.h:25-44 | a legacy-created address is recognised as legacy |
| PciAddressing.IsLegacy | kernel/include/devices/PciBridge.h:43-44 | an address is legacy exactly when its upper 32 bits are all set |
| PciAddressing.CreateEcam | kernel/include/devices/PciBridge.h:32-36 | the low 12 bits are the segment base's plus the dword-aligned offset; for a 256 MiB-aligned segment base the address is the base with bus, device, function and offset in the bits below |
| PciAddressing.CreateLegacyInjective | kernel/include/devices/PciBridge.h:29 | different in-range (bus, device, function, offset) tuples give different legacy addresses |
| PciAddressing.EcamAddend | kernel/include/devices/PciBridge.h:34 | the ECAM offset stays below 256 MiB, keeps the aligned register offset in its low 12 bits, and places bus, device and function in their fields |
| PciAddressing.EcamAddendInjective | kernel/include/devices/PciBridge.h:32-36 | different in-range tuples give different ECAM offsets |
| PciAddressing.CreateEcamInjective | kernel/include/devices/PciBridge.h:32-36 | within one segment, different in-range tuples give different ECAM addresses |
| PciAddressing.EcamIsNotLegacy | kernel/include/devices/PciBridge.h:27-44 | an ECAM address in a segment below the legacy tag is never mistaken for a legacy one |
| DriverRegistry.FirstSharing | kernel/drivers/DriverManager.cpp:131-163 | the index found is the first list sharing a load name, and none is found exactly when no list shares one |
| DriverRegistry.AnyNameMatches | kernel/drivers/DriverManager.cpp:139-156 | the nested loops report a match exactly when some candidate name matches some wanted name |
| DriverRegistry.ApiTypeValue | kernel/drivers/DriverManager.cpp:20-24 | each API type has its own value below 6 |
| DriverRegistry.AdmitKeepsUnique | kernel/drivers/DriverManager.cpp:339-366 | admitting a manifest that passes the name checks keeps friendly names and load names unique |
| DriverRegistry.InsertFreshKeepsValid | kernel/drivers/DriverManager.cpp:401-427 | inserting a node under the next id keeps ids unique and below the allocator |
| DriverRegistry.RetagKeepsValid | kernel/drivers/DriverManager.cpp:251-277 | retagging a device's attached driver keeps the registry valid |
| DriverRegistry.DriverManager.NodeAt | kernel/drivers/DriverManager.cpp:486-509 | a node is found exactly when its id is in the tree |
| DriverRegistry.DriverManager.InvalidHandleUnused | kernel/drivers/DriverManager.cpp:307 | no node ever has the invalid handle as its id |
| DriverRegistry.DriverManager.Init | kernel/drivers/DriverManager.cpp:304-315 | id 0 stays reserved, the kernel instance is the only node and has id 1, the next id is 2, and the counters are zero |
| DriverRegistry.DriverManager.LocateDriver | kernel/drivers/DriverManager.cpp:131-163 | returns the first manifest sharing a load name with the request, or none |
| DriverRegistry.DriverManager.LocateDevice | kernel/drivers/DriverManager.cpp:165-191 | returns the first unclaimed device sharing a load name, or the invalid handle |
| DriverRegistry.DriverManager.EnsureRunning | kernel/drivers/DriverManager.cpp:193-232 | succeeds exactly when the manifest exists and its image is already loaded or, freshly, loads, carries a driver manifest and accepts Init; the image stays loaded once LoadElf returns one, and the loaded count grows by one only when a fresh load succeeds |
| DriverRegistry.DriverManager.AttachDevice | kernel/drivers/DriverManager.cpp:234-278 | succeeds exactly when driver and device exist, the driver runs and accepts the device; an instance is then linked to the device, otherwise the device is left unattached |
| DriverRegistry.DriverManager.BindInstance | kernel/drivers/DriverManager.cpp:251-277 | the device points at the new instance if accepted and at the invalid handle otherwise; the unclaimed count drops on acceptance |
| DriverRegistry.DriverManager.LinkInstance | kernel/drivers/DriverManager.cpp:240-249 | the new instance takes the next id and the device points at it |
| DriverRegistry.DriverManager.UnlinkInstance | kernel/drivers/DriverManager.cpp:263-268 | the instance leaves the tree and the device is detached |
| DriverRegistry.DriverManager.AddDescriptor | kernel/drivers/DriverManager.cpp:397-438 | a missing descriptor is refused with the invalid handle and changes nothing; otherwise it is stored under the next id and attached, to a new instance of the first manifest sharing a load name, exactly when that driver runs and accepts the device, else queued as unclaimed; the node tree, id allocator, counters and every manifest's image state are given in full |
| DriverRegistry.DriverManager.ClaimDescriptor | kernel/drivers/DriverManager.cpp:429-437 | with no manifest sharing a load name the descriptor is queued as unclaimed and nothing else changes; with one, it is attached to a new instance of the first such manifest exactly when that driver runs and accepts the device; the node tree, id allocator, counters and every manifest's image state are given in full |
| DriverRegistry.DriverManager.InsertDescriptor | kernel/drivers/DriverManager.cpp:401-427 | the descriptor is stored under the next id, and the descriptor and unclaimed counts grow |
| DriverRegistry.DriverManager.AddApi | kernel/drivers/DriverManager.cpp:446-478 | an API is added exactly when one is given and the well-formedness check accepts it; it is stored under the next id, owned by the given instance or the kernel's, and counted |
| DriverRegistry.DriverManager.AddManifest | kernel/drivers/DriverManager.cpp:339-389 | a manifest is registered exactly when its friendly name and load names are new; a registered one is appended and counted, and with `loadNow` its image is loaded, the loaded count growing when it starts; a refused one changes nothing |
| DriverRegistry.DriverManager.AttachPendingDevice | kernel/drivers/DriverManager.cpp:377-385 | a device is found exactly when an unclaimed descriptor shares a load name; the first such one goes through AttachDevice with the full new node tree, id allocator, counters and image state, it goes back on the unclaimed list when the attach fails, and it is still the first one found afterwards |
| DriverRegistry.PendingStaysFirst | kernel/drivers/DriverManager.cpp:165-190 | the first unclaimed descriptor sharing a name stays first while the list only grows at its end and descriptors keep their load names |
| DriverRegistry.DriverManager.GetById | kernel/drivers/DriverManager.cpp:486-509 | returns the node with the id, or none |
| DriverRegistry.DriverManager.GetInstance | kernel/drivers/DriverManager.cpp:547-553 | returns the node exactly when it exists and is a driver instance |
| DriverRegistry.DriverManager.GetDescriptor | kernel/drivers/DriverManager.cpp:555-561 | returns the node exactly when it exists and is a device descriptor |
| DriverRegistry.DriverManager.GetApi | kernel/drivers/DriverManager.cpp:563-569 | returns the node exactly when it exists and is an API |
| DriverRegistry.LocateFindsOwner | kernel/drivers/DriverManager.cpp:131-163 | with unique manifests, looking a manifest's own load names up finds that manifest |
| VirtualFilesystem.NextEntry | kernel/filesystem/Filesystem.cpp:102-116 | the next header follows the current header and its data rounded up to whole blocks |
| VirtualFilesystem.InitdiskScanLoadsFiles | kernel/filesystem/Filesystem.cpp:102-116 | every entry the scan loads is a regular file inside the archive, and the entries come in increasing order |
| VirtualFilesystem.InitdiskScanComplete | kernel/filesystem/Filesystem.cpp:102-116 | an entry is loaded exactly when the entry-to-entry walk reaches it, inside the buffer and before the two zero blocks, and it is a regular file: none is missed and nothing past the end marker or the buffer is loaded |
| VirtualFilesystem.EmptyArchiveLoadsNothing | kernel/filesystem/Filesystem.cpp:102-116 | an archive that starts with two zero blocks loads nothing, whatever follows |
| VirtualFilesystem.InitdiskScanSplit | kernel/filesystem/Filesystem.cpp:102-116 | for an entry m the walk reaches, the scan of the whole buffer is the scan of the buffer cut at m followed by the scan from m on |
| VirtualFilesystem.NameLength | kernel/filesystem/Filesystem.cpp:130 | the length counts the characters before the terminator |
| VirtualFilesystem.MatchesAsWrittenAcceptsPrefixes | kernel/filesystem/Filesystem.cpp:130-131 | as written, the empty name and "north" are accepted as the initdisk name |
| VirtualFilesystem.MatchesAsWrittenIsPrefix | kernel/filesystem/Filesystem.cpp:130-131 | as written, a name is accepted exactly when it is a prefix of the initdisk name |
| VirtualFilesystem.InitdiskNameMatches | kernel/filesystem/Filesystem.cpp:130-131 | corrected: a name matches exactly when it has the initdisk name's length and passes the written comparison |
| VirtualFilesystem.FirstInitdisk | kernel/filesystem/Filesystem.cpp:127-132 | the module chosen is the first whose name passes the comparison as written, and none is chosen exactly when no module passes it |
| VirtualFilesystem.NamedInitdiskFound | kernel/filesystem/Filesystem.cpp:127-132 | a module carrying the full initdisk name is always found, at its own position or earlier |
| VirtualFilesystem.EmptyNameShadowsInitdisk | kernel/filesystem/Filesystem.cpp:127-132 | as written, a module with an empty name placed before the initdisk is taken in its place |
| VirtualFilesystem.Vfs.RootFs | kernel/filesystem/Filesystem.cpp:181-184 | the root is the first mounted filesystem, or none when nothing is mounted |
| VirtualFilesystem.Vfs.VfsLookup | kernel/filesystem/Filesystem.cpp:186-198 | with nothing mounted the lookup fails; "/" is the root node; other paths go to the root filesystem with one leading slash removed |
| VirtualFilesystem.Vfs.LookupStripsOneSlash | kernel/filesystem/Filesystem.cpp:192-193 | a leading slash is stripped once, so "//" resolves "/" in the root filesystem |
| VirtualFilesystem.Vfs.LoadInitdisk | kernel/filesystem/Filesystem.cpp:95-119 | with no mountpoint or no archive nothing is loaded; otherwise the scan's entries are loaded and counted |
| VirtualFilesystem.Vfs.TryFindInitdisk | kernel/filesystem/Filesystem.cpp:121-163 | without a module response, or with no module passing the name comparison as written, nothing is mounted; otherwise the first such module is loaded, and the new filesystem is mounted exactly when the mountpoint and the mount succeed |
| VirtualFilesystem.Vfs.InitVfs | kernel/filesystem/Filesystem.cpp:165-179 | the root temporary filesystem is mounted first and becomes the root, then the initdisk if it mounts |
| DebugLog.SizeSub | kernel/debug/Log.cpp:67-73 | size_t subtraction: the plain difference when it does not underflow, and the difference modulo 2^64 when it does |
| DebugLog.LevelStr | kernel/debug/Log.cpp:19-23 | every level name is ten characters, bracketed and followed by a space |
| DebugLog.LevelColour | kernel/debug/Log.cpp:25-29 | every colour is a five-character ANSI escape sequence |
| DebugLog.LevelStrInjective | kernel/debug/Log.cpp:19-23 | different levels have different names |
| DebugLog.Decimal | kernel/debug/Log.cpp:154 | the decimal text is non-empty and made of digits |
| DebugLog.DecimalRoundTrip | kernel/debug/Log.cpp:154 | reading the decimal text back gives the number |
| DebugLog.AppendPiece | kernel/debug/Log.cpp:173-191 | copying a piece into the line buffer extends the text written so far by that piece |
| DebugLog.PrintThenSpace | kernel/debug/Log.cpp:173-181 | copying a field and a space extends the text written so far by both |
| DebugLog.WritePrefix | kernel/debug/Log.cpp:173-187 | the prefix is uptime, core, colour, level name and reset, in order, and its length is their sum |
| DebugLog.FormatLine | kernel/debug/Log.cpp:150-200 | the line buffer holds exactly the formatted log line and is exactly as long as it |
| DebugLog.PlaceMessage | kernel/debug/Log.cpp:86-129 | the write begins at the head modulo the buffer length; when the reservation fits, the queue item comes first and the whole message is copied right after it; when it runs over the end, the message is split into two copies, the second going to the buffer start and continuing where the first stopped |
| DebugLog.PlaceMessageWrapMovesMessage | kernel/debug/Log.cpp:95-116 | on a wrap the two copy lengths add up to the message length modulo 2^64, exactly unless the size_t length of the second copy wraps below zero; the item comes before the text when the overrun has room for it, and otherwise the text begins at the write position |
| DebugLog.MessageSplit | kernel/debug/Log.cpp:67-73 | the head part and the runover part add up to the message, and the head part ends at the buffer end whenever there is runover |
| DebugLog.ElosAsWrittenCallsEmptySlot | kernel/debug/Log.cpp:75-81 | as written, a wrapping message calls an empty output slot for its runover |
| DebugLog.WritesFromOccupied | kernel/debug/Log.cpp:75-81 | corrected: every early-output call goes to an occupied slot |
| DebugLog.SlotWritesCover | kernel/debug/Log.cpp:75-81 | an occupied slot receives the message head and then its runover, exactly when there is some |
| DebugLog.WritesAgreeWhenFull | kernel/debug/Log.cpp:75-81 | with every slot occupied, the corrected writes equal the writes as written |
| DebugLog.FlushWritesAppend | kernel/debug/Log.cpp:137-144 | flushing one more message adds that message's writes, as written, at the end |
| DebugLog.FirstEmpty | kernel/debug/Log.cpp:230-238 | the slot found is the first empty one, and none is found exactly when every slot is full |
| DebugLog.OccupiedFill | kernel/debug/Log.cpp:230-238 | filling an empty slot adds one occupied slot |
| DebugLog.OccupiedFull | kernel/debug/Log.cpp:230-238 | there is no empty slot exactly when every slot is occupied |
| DebugLog.LogBuffer.constructor | kernel/debug/Log.cpp:35-40 | a ring buffer starts with the given length and an empty head |
| DebugLog.Logger.constructor | kernel/debug/Log.cpp:49-59 | at boot the queue is empty, every early-output slot is empty, the early-output count is 0, and the early buffer is EarlyBufferSize bytes with its head at 0 |
| DebugLog.Logger.FlushCount | kernel/debug/Log.cpp:135-144 | the flush takes at most the queued messages and at most the per-flush limit, and none when the queue is empty, no output is attached or the lock is busy |
| DebugLog.Logger.WriteElos | kernel/debug/Log.cpp:62-82 | the early outputs receive exactly the writes as written: the head of the message goes to each occupied slot, and the runover goes to every slot, occupied or not |
| DebugLog.Logger.WriteLog | kernel/debug/Log.cpp:84-148 | the message is placed as PlaceMessage says, the head advances by the message and two queue items, the message is queued, and up to twenty queued messages are flushed with the writes as written, in queue order |
| DebugLog.Logger.Log | kernel/debug/Log.cpp:150-209 | the formatted line goes to the core buffer when there is one and to the early buffer otherwise, the flush makes the writes as written, and a fatal message panics |
| DebugLog.Logger.AddEarlyLogOutput | kernel/debug/Log.cpp:221-239 | the callback takes the first empty slot, and nothing changes when every slot is full |
| KernelLog.Header | kernel/Log.cpp:37-57 | only the named severities have a header, each bracketed and followed by a space |
| KernelLog.HeadersDistinct | kernel/Log.cpp:37-57 | the named severities have different headers |
| KernelLog.CString | kernel/Log.cpp:71-72 | the printed characters are the message up to its first NUL |
| KernelLog.CStringOfPlain | kernel/Log.cpp:71-72 | a message without a NUL is printed whole |
| KernelLog.Logging.constructor | kernel/Log.cpp:8 | the destination table starts with every destination off, as zeroed static storage does |
| KernelLog.Logging.LoggingInitEarly | kernel/Log.cpp:10-15 | every destination is turned off |
| KernelLog.Logging.IsLogDestinationEnabled | kernel/Log.cpp:22-27 | reports whether the destination is on; one past the table is off |
| KernelLog.Logging.EnableLogDestinaton | kernel/Log.cpp:29-33 | sets one destination as asked and leaves the others; one past the table changes nothing |
| KernelLog.Logging.Log | kernel/Log.cpp:35-86 | the console receives header, message, "\n" and "\r" exactly when the debug console is enabled |
| Vectors.Vector2.Zero | libs/np-syslib/include/Vectors.h:11-12 | the default vector is all zeros |
| Vectors.Vector2.Splat | libs/np-syslib/include/Vectors.h:14-15 | every component is the given value |
| Vectors.Vector2.Eq | libs/np-syslib/include/Vectors.h:20-21 | equality holds exactly for equal vectors |
| Vectors.Vector2.Ne | libs/np-syslib/include/Vectors.h:23-24 | inequality is exactly the negation of equality |
| Vectors.Vector3.Zero | libs/np-syslib/include/Vectors.h:39-40 | the default vector is all zeros |
| Vectors.Vector3.Splat | libs/np-syslib/include/Vectors.h:42-43 | every component is the given value |
| Vectors.Vector3.Eq | libs/np-syslib/include/Vectors.h:48-49 | equality holds exactly for equal vectors |
| Vectors.Vector3.Ne | libs/np-syslib/include/Vectors.h:51-52 | inequality is exactly the negation of equality |
| Vectors.Vector4.Zero | libs/np-syslib/include/Vectors.h:68-69 | the default vector is all zeros |
| Vectors.Vector4.Splat | libs/np-syslib/include/Vectors.h:71-72 | every component is the given value |
| Vectors.Vector4.Eq | libs/np-syslib/include/Vectors.h:77-78 | equality holds exactly for equal vectors |
| Vectors.Vector4.Ne | libs/np-syslib/include/Vectors.h:80-81 | inequality is exactly the negation of equality |

## Left out

- Concurrency: spinlocks, reader/writer locks, atomics and the multi-producer queue internals are not modelled. Whether the early-output lock was acquired is a parameter.
- Integer widths: the statistics counters, ids and the log head are unbounded integers. `size_t` wrap-around is modelled only where it decides a branch (`DebugLog.SizeSub`).
- DebugLog.Logger.WriteLog: the placement, the head and the queue are modelled. No ring-buffer bytes are modelled, in either branch, and it is not claimed that the copies stay in bounds.
- DebugLog.PlaceMessage: `itemAddr` is the offset the item is placed from. The queue item itself is constructed at that address rounded up to `sizeof(QueueItem)` (kernel/debug/Log.cpp:126), and that alignment is not modelled, because the item's bytes are not.
- The panic path of the debug log (PanicWrite, PanicLanding, Panic) is left out. A fatal message is modelled as a panic flag.
- The log driver service is left out: AttachLogDriver, DetachLogDriver and LogWriterServiceMain, which need threads and the driver API.
- InitCoreLogBuffers is left out, because it allocates from the physical memory manager. Per-core buffers are a parameter of `DebugLog.Logger.Log`.
- Message formatting (NanoPrintf) is left out. The formatted text is a parameter.
- KernelLog: Log.h is not part of this model. The destination numbering and the severity list are taken in the order the source handles them.
- Vectors: the floating-point aliases are left out, and components are unbounded integers rather than 64-bit ones.
- VfsVm: ModifyRange and Split are left out, and so is allocation and release of the per-range link record.
- VfsVm.VfsVmDriver.HandleFault: charges a granule whatever the HAT map call returns, as the source does. It is not claimed to be idempotent on an already-resident page.
- VfsVm.VfsVmDriver.Attach: the eager path maps the unit's physical base with no offset inside the unit, as the source does. This is kept as written rather than reported.
- DriverRegistry.DriverManager.AddManifest: in the source, the pending-device loop re-scans from the start after a match and does not terminate once a device matches. LocateDevice leaves the descriptor on the unclaimed list, and `AttachPendingDevice` proves it is found again after every pass. The loop is therefore modelled as one pass (`AttachPendingDevice`).
- DetachDevice, RemoveManifest, RemoveDescriptor and RemoveApi are left out. They only stop with an unimplemented-path error.
- GetStackFromId, SetTransportApi, the shadow accessors and the print helpers are left out.
- VirtualFilesystem: LoadInitdiskFile, PrintVfsNode and the filesystem drivers are left out. Tar headers are pre-parsed blocks, and the parent lookup of each loaded file is not modelled.
- IoApicDevice.IoApic.WriteRedirect: the register index is `Redirect0 + pin` as written, so adjacent pins overlap. This is proved as a property (`AdjacentRedirectsShareRegister`) rather than corrected.
- IoApicDevice.IoApicSystem.ApplyNmis: the GSI is taken as 8 bits, as the source's NMI loop passes it. Every NMI pin is therefore refused, and the loop has no effect.
- VmDriverFlags: the driver-type name table has no stated correspondence with the enumeration.
- LocalApicDevice.LocalApic.Init: the 8259 PIC port writes, the CPUID check and the global-enable check are left out. The MADT flag is not modelled.
- Unknown constants are parameters or named constants: the router's vector allocation window, `NoCoreAffinity` (-1 as an unsigned value), the invalid handle and the I/O APIC register numbers.
- RiscvTrap.Hart.TrapDispatch: requires an interrupt's cause code to be below 31. After handling an interrupt the source clears its pending bit with `1 << vector`, a shift of a 32-bit `int` that is undefined from 31 up; those codes are excluded rather than given a meaning.
- InterruptRouting.InterruptRouter.GetRouting: the shortcut for the calling core, which reads the routing from core-local storage, is not modelled. InitCore stores the same routing object there and in the list, so the list scan finds the same routing.
- DriverRegistry.DriverManager: the per-instance lists of provided devices and APIs (`providedDevices`, `apis`) are not modelled. Nodes record their owning instance instead, and the lists are only read by code outside this model.
- RiscvTrap.Hart.TrapDispatch: the calls around the dispatch are left out: saving the interrupted frame (SaveCurrentFrame), handling IPI mail (ProcessIpiMail, modelled as the `IpiMail` action only), and resuming through RunNextFrame and ExecuteTrapFrame. They belong to the scheduler and the IPI code, which are not part of this model.
- Hardware access is modelled as register maps, with no timing or side effects: CSR reads and writes, MMIO and MSR reads.

## Findings

| source | as written | input that shows it | evidently intended | confidence | as-written member | corrected member |
|---|---|---|---|---|---|---|
| kernel/filesystem/Filesystem.cpp:130-131 | the module name is compared over its own length only | a module named "north", or an empty name, is accepted as the initdisk | accept only the full initdisk name | high (not executed) | VirtualFilesystem.MatchesAsWrittenAcceptsPrefixes | VirtualFilesystem.InitdiskNameMatches |
| kernel/debug/Log.cpp:79-80 | the runover of a wrapping message is passed to every output slot, without the check that guards the head write | slots [Some(7), None, None, None] and a two-character message starting one before the buffer end | skip empty slots, as the head write does | high (not executed) | DebugLog.ElosAsWrittenCallsEmptySlot | DebugLog.WritesFromOccupied |
| kernel/devices/LApic.cpp:103 | the register value is assigned `~(1 << 16)` instead of being ANDed with it | unmasking the LVT entry for vector 0x20 writes vector 0xFF and sets the mode, polarity and trigger bits | clear only the mask bit and keep the rest of the entry | high (not executed) | LocalApicDevice.LvtMaskWriteClobbersEntry | LocalApicDevice.LvtMaskUpdate |

The operations (`FirstInitdisk`, `Vfs.TryFindInitdisk`, `Logger.WriteElos`, `Logger.WriteLog`, `Logger.Log`, `LocalApic.SetLvtMasked`) follow the code as written. The corrected definitions stand beside them, with the intended property proved about each.
