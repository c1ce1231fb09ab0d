# NoirVisor: a verified model of its address translation and caches

NoirVisor is a hypervisor for AMD and Intel processors. This project models, in Dafny, how it maps
guest memory through second-level paging and how it keeps its two lazily synchronized caches, and
proves what those parts are for. `dafny verify dfyconfig.toml` checks all of it.

## What is modelled

Loops and in-place updates of the C code are methods on classes: the page-table managers with their
arrays and linked descriptor lists, the reverse mapping, the shadow VMCB pool, the virtual CPU. Each
method is proved equal to a function of the state's value, and the properties are lemmas about those
functions.

- `Descriptors`: table descriptors and the head/tail lists that hold them, searched by address range
  or by physical page.
- `IdentityMap`, `IdentityManager`: the host identity map. A flat array of 2^18 entries of 1 GiB is
  refined on demand into described 2 MiB and 4 KiB tables. The AMD nested page table and the Intel
  extended page table have the same structure and share this model; an entry carries rights, a memory
  type and the flag that an MTRR covers it, and the AMD map leaves the last two at zero.
- `EptMemoryType`, `Mtrr`, `Masks`, `MtrrEmulation`, `MtrrPrecedence`, `EptManager`: MTRR emulation,
  from one update to the whole routine and its comparison with the architecture, and the insertion of
  the Intel stealth hooks.
- `HookViews`, `HookManager`: the primary and secondary nested page tables of the AMD stealth hooks.
- `StealthHook`: the Intel stealth hooks over whole runs of a virtual CPU.
- `Ownership`, `OwnershipOutcome`, `OwnershipRuns`, `OwnershipManager`: page ownership, its
  self-recursive reassignment, when that succeeds and what it leaves, and what any run of requests
  leaves of secure pages and of NoirVisor's.
- `CustomMap`, `CustomWalk`, `CustomManager`: the sparse four-level table of a customizable guest, its
  three lookups, and what the processor's own walk makes of it.
- `NestedVmcb`, `NestedPool`: the sixteen shadow VMCBs of nested virtualization.
- `RegisterCache`, `RegisterSwitch`: the register cache of a customizable virtual CPU.
- `MappingLocks`: mapping calls against running virtual CPUs, for any interleaving of threads.

Addresses are page numbers (byte address divided by 4096) below 2^36, that is 2^48 bytes. A table's
physical page is named by the order of its allocation; `Ownership` maps that order to real pages by an
arbitrary function, since there the page itself matters. Registers are 64-bit vectors. MSR contents,
processor actions and guest actions are inputs.

Assumptions: table allocations succeed and return zeroed, distinct pages; hook pages are page-aligned;
the reverse mapping is a finite map with lookup and update.

## Where the code differs from its intent

Each of these is stated as the exact condition under which the code does what is intended, with an
input or a run for which it does not.

- A 2 MiB memory-type update of a split entry succeeds but returns false, which ends a 1 GiB update
  early. The MTRR types are right for all types a register can hold exactly when no 1 GiB step meets
  an earlier split before the last 2 MiB of its region (`MtrrPrecedence.RightForAllTypesIffClean`);
  two registers for which they are not are in `MtrrPrecedence.PageThenGigabyteIsWrong`.
- A register is taken to hold as many pages from its base as the lowest mask bit says. That is the
  architecture's mask test exactly when the base is aligned and the mask has no gaps
  (`MtrrPrecedence.HoldsIffRegular`).
- Registers of the default type are skipped. That is right exactly when the default need not win over
  another type (`MtrrPrecedence.ArchitecturalIffDefaultDoesNotWin`); it always is with a write-back
  default, and `MtrrPrecedence.UncacheableDefaultLoses` shows an uncacheable default for which it is
  not.
- Stage I of ownership reassignment looks up both levels before it recurses, so it can hand over the
  same PTE table twice and fail. `OwnershipOutcome.ReassignSucceedsIff` says exactly when a request
  succeeds, from the pages of the tables it is going to make; `OwnershipOutcome.StaleLookupFails` is
  the general case of the failure and `OwnershipOutcome.SpuriousFailure` an input.
- On Intel, an instruction that is fetched from a hooked page which it reads or writes and does not
  start in never gets through: fetch and data access take the page from each other for ever. All
  others do (`StealthHook.GetsThroughIff`, `StealthHook.PingPong`).
- The hook search starts with its upper bound on a zeroed entry. It is right exactly when there is a
  hook or the address lies above the first page (`StealthHook.HookedCpu.Find`); otherwise the handler
  goes through a null pointer (`StealthHook.HookedCpu.HandleViolation`).
- Both custom walkers test no-execute the wrong way round (`CustomMap.RightAnswerIffExecutable`), and
  an access that asks neither to read nor to write passes zeroed entries. What that does to a mapping
  call is in `CustomMap.SetPageIsPointUpdate`, and to the agreement of the two walkers in
  `CustomMap.SparseWalkersAgreeIff`.
- A nested exit copies the GDT base twice and the IDT base never
  (`NestedVmcb.IdtBaseSurvivesIff`, `NestedVmcb.IdtBaseLost`), and the AVIC routine clears the
  last-branch clean bit (`NestedVmcb.AvicBitLiesIff`, `NestedVmcb.AvicBitLies`).
- The register-by-register edit of the stack pointer does not invalidate its group
  (`RegisterCache.EditRspTakesIff`), and the kernel GS base is never read back
  (`RegisterCache.KernelGsBaseKeptIff`, `RegisterCache.KernelGsBaseLost`).

## Model

| member | source | states |
|---|---|---|
| `Descriptors.DescriptorList.FindRegion` | src/svm_core/svm_npt.c:83-89 | The first descriptor whose range holds the address is found exactly when its region is described, and it is that region's own |
| `Descriptors.DescriptorList.FindTable` | src/svm_core/svm_custom.c:1284-1286 | The search by physical page finds a table exactly when some descriptor in the list has that page |
| `Descriptors.DescriptorList.Append` | src/svm_core/svm_npt.c:113-123 | Appending at the tail keeps the list acyclic with a correct tail, adds exactly one region, and leaves all other tables as they were |
| `Descriptors.DescriptorList.Write` | src/svm_core/svm_npt.c:276-281 | Overwriting one entry changes that entry of that region's table and nothing else in the list |
| `Descriptors.DescriptorList.Transform` | src/svm_core/svm_npt.c:377-383 | A loop over all descriptors and all 512 entries rewrites every entry of every table, and nothing is lost or reordered |
| `Descriptors.Span.RangeIsRegion` | src/svm_core/svm_npt.c:86 | The byte-range test of the searches is membership in the aligned region |
| `Descriptors.ByRegionAppend` | src/svm_core/svm_npt.c:113-123 | Appending a descriptor of a new region extends the tables by region by just that one |
| `Descriptors.ByRegionUpdate` | src/svm_core/svm_npt.c:276-281 | Changing one descriptor's table changes the tables by region at its region only |
| `IdentityMap.WalkIsView` | src/svm_core/svm_npt.c:81-211 | Under the structural invariant the processor's walk by physical pointers never meets a missing table and yields the region-by-region meaning, rights being the AND along the walk |
| `IdentityMap.WalkRights` | src/svm_core/svm_npt.c:81-211 | Right by right, the walk grants what the entries of all levels on the way grant, with the last entry's memory type |
| `IdentityMap.SplitPdpteKeeps` | src/svm_core/svm_npt.c:81-140 | Splitting a 1 GiB entry, in host mode or not, with or without allocation, changes no page's host, rights, memory type or MTRR flag, and keeps the whole invariant |
| `IdentityMap.SplitPdeKeeps` | src/svm_core/svm_npt.c:143-211 | The same for splitting a 2 MiB entry, including later linking of a still pristine descriptor |
| `IdentityMap.SplitPdeAbove` | src/svm_core/svm_npt.c:143-211 | Splitting leaves what the levels above the last one grant to any page as it was |
| `IdentityMap.SplitHugeWalk` | src/vt_core/vt_ept.c:64-126 | What the processor's walk yields for a huge leaf before and after the split |
| `IdentityMap.SplitKeepsHostIffIdentity` | src/vt_core/vt_ept.c:85-103 | Because a split resets the children to identity, translations survive exactly when the leaf was identity |
| `IdentityMap.SetPteView` | src/svm_core/svm_npt.c:269-285 | Writing the entry of a page whose walk reaches its own table changes the meaning of that page alone, under the rights the levels above leave it |
| `IdentityMap.UpdatePteView` | src/vt_core/vt_ept.c:338-354 | An update gives one page the host page, and the rights asked for as far as the levels above allow, and the memory type unless it is to be kept; all others keep their meaning |
| `IdentityMap.UpdatesRefineMap` | src/svm_core/svm_npt.c:269-285 | Any sequence of page updates, whatever the upper levels restrict, refines the same sequence of updates of a page map, as the processor walks it |
| `IdentityMap.UpdateLargeView` | src/svm_core/svm_npt.c:238-267 | Making a region without a PTE table one large identity page with given rights changes the rights of that region alone |
| `IdentityMap.FreshMeaning` | src/svm_core/svm_npt.c:461-481 | The map as built is the identity with all rights and one memory type |
| `IdentityManager.Manager.constructor` | src/vt_core/vt_ept.c:690-709 | The nested loops that fill the 2^18 entries build the fresh identity map |
| `IdentityManager.Manager.SplitPdpte` | src/svm_core/svm_npt.c:81-140 | In place: the state afterwards is the split of the state before; a descriptor is returned exactly when the region is described |
| `IdentityManager.Manager.SplitPde` | src/svm_core/svm_npt.c:143-211 | In place: likewise for the 2 MiB level, including the nested split of the level above |
| `IdentityManager.Manager.DescribeHuge` | src/svm_core/svm_npt.c:91-123 | In place: a new PDE table maps the 512 large pages of its region and is appended |
| `IdentityManager.Manager.DescribeLarge` | src/svm_core/svm_npt.c:152-193 | In place: a new PTE table, the level above split first, is appended |
| `IdentityManager.Manager.UpdatePte` | src/vt_core/vt_ept.c:338-354 | In place: the state afterwards is the page update of the state before |
| `EptMemoryType.TouchPageEffect` | src/vt_core/vt_ept.c:211-225 | A page update merges the type into that page and marks it covered, nothing else |
| `EptMemoryType.TouchLargeEffect` | src/vt_core/vt_ept.c:227-253 | A 2 MiB update touches exactly its 512 pages whether or not the entry is split, and reports failure exactly when it is split |
| `EptMemoryType.TouchLargesEffect` | src/vt_core/vt_ept.c:267-274 | A loop of 2 MiB updates reaches up to and including the first split entry |
| `EptMemoryType.TouchHugeEffect` | src/vt_core/vt_ept.c:255-276 | A 1 GiB update touches its region from the start up to and including the first split 2 MiB entry and nothing beyond |
| `EptMemoryType.Stop` | src/vt_core/vt_ept.c:270-273 | Where the loop ends: after the first split entry if there is one, otherwise at the end |
| `Mtrr.Choose` | src/vt_core/vt_ept.c:405-422 | The step chosen fits what remains and is naturally aligned at the address |
| `Mtrr.ChooseLargest` | src/vt_core/vt_ept.c:405-422 | No larger step fits what remains and is naturally aligned |
| `Mtrr.TilesAreATiling` | src/vt_core/vt_ept.c:401-445 | The steps are naturally aligned, consecutive, disjoint, and run exactly from base to base plus length |
| `Mtrr.TilesCover` | src/vt_core/vt_ept.c:401-445 | A page lies in exactly one step if it lies in the range and in none otherwise |
| `Mtrr.LayoutOnce` | src/vt_core/vt_ept.c:456-457 | No page is touched by two steps of one register |
| `Mtrr.ApplyEffect` | src/vt_core/vt_ept.c:424-444 | Each step touches the pages it reaches, a 1 GiB step ending at an earlier split, and splits only what a 4 KiB step splits |
| `Mtrr.RunMeaning` | src/vt_core/vt_ept.c:456-460 | Any run of steps from any map does to each page what the steps that reach it do in turn |
| `Mtrr.RunFromFresh` | src/vt_core/vt_ept.c:456-460 | For any registers whatever, the map stays the identity with all rights and each page has the lowest type of the steps that reach it |
| `Mtrr.CleanIsRight` | src/vt_core/vt_ept.c:372-381 | When no 1 GiB step lands on a region split earlier before its last 2 MiB, each page gets the lowest type of the ranges that hold it, or the default |
| `Mtrr.UncleanIsWrong` | src/vt_core/vt_ept.c:252-273 | Otherwise the page just after the split region gets a wrong type |
| `Mtrr.RightForAllTypesIffClean` | src/vt_core/vt_ept.c:372-381 | The ranges get their types right for all types a register can hold exactly when the layout is clean |
| `Mtrr.PageThenGigabyteIsUnclean` | src/vt_core/vt_ept.c:252-273 | A one-page range followed by the gigabyte around it is not clean, and page 512 keeps the default type whatever types the two carry |
| `Masks.LowestBitIs` | src/vt_core/vt_ept.c:397-399 | The bit scan of a mask yields a power of two of which the mask is an odd multiple |
| `Masks.BlockIsMatchIff` | src/vt_core/vt_ept.c:396-401 | The pages from the base on, as many as the lowest mask bit says, are the pages that match the base under the mask exactly when the base is aligned and the mask has no gaps |
| `MtrrEmulation.SetFixedView` | src/vt_core/vt_ept.c:464-541 | The fixed-range loops set the types of the pages of the first MiB from their bytes and change nothing else |
| `MtrrEmulation.ClearView` | src/vt_core/vt_ept.c:542-551 | Clearing the bookkeeping bits changes no translation, right or type |
| `MtrrEmulation.MtrrTypes` | src/vt_core/vt_ept.c:450-551 | After the whole update every page is identity with all rights and has its fixed-range type if fixed ranges are on and it lies below 1 MiB, otherwise the lowest type of the valid non-default registers that hold it, otherwise the default |
| `MtrrEmulation.WantedIffLowestOfRegs` | src/vt_core/vt_ept.c:386-393 | The type the layout asks for is the lowest over the registers themselves, the system-management range included |
| `MtrrEmulation.TypeAboveFixed` | src/vt_core/vt_ept.c:450-551 | Whatever the layout, the whole routine leaves a page above the fixed ranges the type that the steps leave |
| `MtrrPrecedence.RightForAllTypesIffClean` | src/vt_core/vt_ept.c:450-551 | The whole routine types every page as its registers ask, whatever legal types the registers hold, exactly when no 1 GiB step meets an earlier split before the last 2 MiB of its region |
| `MtrrPrecedence.PageThenGigabyteIsWrong` | src/vt_core/vt_ept.c:252-273 | For page 0 uncacheable and the first gigabyte write-through over a write-back default, page 512 ought to be write-through and is left write-back |
| `MtrrPrecedence.HoldsIffRegular` | src/vt_core/vt_ept.c:396-401 | A register's pages are those the architecture's mask test gives exactly when its base is aligned and its mask has no gaps |
| `MtrrPrecedence.AgreesIffDefaultDoesNotWin` | src/vt_core/vt_ept.c:392-393 | For regular registers, skipping those of the default type yields the type of section 11.11.4.1 of the Intel SDM, Volume 3A, wherever it is defined, exactly when the default does not have to win over another type |
| `MtrrPrecedence.ArchitecturalIffDefaultDoesNotWin` | src/vt_core/vt_ept.c:450-551 | End to end: for a clean layout and regular registers the routine leaves a page the architectural type exactly unless the default should win |
| `MtrrPrecedence.WriteBackDefaultAgrees` | src/vt_core/vt_ept.c:372-381 | With a write-back default it always does |
| `MtrrPrecedence.UncacheableDefaultLoses` | src/vt_core/vt_ept.c:392-393 | With an uncacheable default, a page that one register makes uncacheable and another write-back ought to be uncacheable and is made write-back |
| `MtrrPrecedence.DisabledIsUncacheable` | src/vt_core/vt_ept.c:687-696 | With MTRRs disabled every page stays uncacheable through the whole routine |
| `MtrrPrecedence.EnabledTypes` | src/vt_core/vt_ept.c:450-551 | With MTRRs enabled and a clean layout every page has the type the registers ask for, written out register by register |
| `MtrrPrecedence.FixedIndexCovers` | src/vt_core/vt_ept.c:464-541 | Which page each of the 88 fixed-range bytes types: eight ranges of 16 pages, sixteen of 4, sixty-four of one |
| `MtrrPrecedence.PrecedenceRules` | src/vt_core/vt_ept.c:392-393 | Section 11.11.4.1 of the Intel SDM, Volume 3A, rule by rule: no register, registers of one type, uncacheable among them, write-through with write-back, and no defined type for any other two |
| `EptManager.UpdatePteMemoryType` | src/vt_core/vt_ept.c:211-225 | In place: the page update of the state before |
| `EptManager.UpdatePdeMemoryType` | src/vt_core/vt_ept.c:227-253 | In place: the 2 MiB update of the state before, with the same return value |
| `EptManager.UpdatePdpteMemoryType` | src/vt_core/vt_ept.c:255-276 | In place: the 1 GiB update of the state before, early stop included |
| `EptManager.UpdatePerVarMtrr` | src/vt_core/vt_ept.c:383-448 | In place: the loop over addresses runs exactly the register's tiles, and nothing if the register is invalid or has the default type |
| `EptManager.UpdateByMtrr` | src/vt_core/vt_ept.c:450-551 | In place: variable registers, system-management range, fixed ranges and clearing in order |
| `EptManager.SetFixedRange` | src/vt_core/vt_ept.c:483-488 | In place: one fixed-range register types its eight runs of pages |
| `EptManager.BuildIdentityMap` | src/vt_core/vt_ept.c:663-726 | In place: identity map, MTRR update and hook insertion |
| `EptManager.BuiltMeaning` | src/vt_core/vt_ept.c:357-370 | In the map as built a hooked page is execute-only on its patched copy with the type the MTRRs gave it, and every other page is as the MTRR update left it |
| `EptManager.BuiltTypes` | src/vt_core/vt_ept.c:663-726 | The type of each page of the map as built: 0 everywhere when MTRRs are disabled; otherwise, for a clean layout, its fixed-range byte, or the lowest type of the valid registers, the system-management range among them, that hold it and are not of the default type, or else the default; hooks change no type |
| `HookViews.HookMeaning` | src/svm_core/svm_npt.c:361-364 | Of the updates for hooks, one of a page's own hooks decides the page; other pages keep their meaning |
| `HookViews.VeilVeils` | src/svm_core/svm_npt.c:365-383 | The three loops take execution from every leaf PDPTE, every PDE and every PTE and leave everything else alone |
| `HookViews.AdmitAgree` | src/svm_core/svm_npt.c:384-410 | Admitting a hooked page rewrites the rights of its own PDPTE, PDE and PTE and no other entry |
| `HookViews.AdmitAllVeils` | src/svm_core/svm_npt.c:384-410 | After all hooks are admitted execution is left on exactly the hooked pages and the tables above them |
| `HookViews.VeiledMeaning` | src/svm_core/svm_npt.c:365-410 | A veiled map keeps every translation and grants execution to exactly the admitted pages |
| `HookViews.PrimaryMeaning` | src/svm_core/svm_npt.c:361-362 | In the primary view everything is identity and a hooked page cannot be executed |
| `HookViews.SecondaryMeaning` | src/svm_core/svm_npt.c:363-410 | In the secondary view a hooked page shows a patched copy and nothing but hooked pages can be executed |
| `HookViews.TwoViews` | src/svm_core/svm_npt.c:354-411 | By the processor's walk each page is executable in exactly one view, the secondary one exactly when it is hooked, readable and writable in both |
| `HookViews.FlipLands` | src/svm_core/svm_exit.c:1540-1554 | After a failed fetch the flipped view always executes the page |
| `HookManager.UpdateHooks` | src/svm_core/svm_npt.c:361-364 | In place: one page update per hook, in order |
| `HookManager.Veil` | src/svm_core/svm_npt.c:365-383 | In place: the loops over the array and both descriptor lists |
| `HookManager.Admit` | src/svm_core/svm_npt.c:384-410 | In place: the PDE, PTE and PDPTE of a hooked page |
| `HookManager.SetPdeTable` | src/svm_core/svm_npt.c:238-267 | In place: pointing a PDE at its table with given rights |
| `HookManager.SetPdpteTable` | src/svm_core/svm_npt.c:213-236 | In place: pointing a PDPTE at its table with given rights |
| `HookManager.BuildHookMapping` | src/svm_core/svm_npt.c:354-411 | In place: both views, from two managers that share nothing |
| `HookManager.BuildViews` | src/svm_core/svm_npt.c:440-496 | Both managers built fresh and hooked |
| `Ownership.UndescribedShrinks` | src/svm_core/svm_npt.c:590-613 | Describing a region never raises, and for a new region lowers, the count of undescribed 1 GiB and 2 MiB regions |
| `Ownership.DescribePages` | src/svm_core/svm_npt.c:590-613 | When stage I completes every listed page is described at both levels |
| `Ownership.Reassign` | src/svm_core/svm_npt.c:583-647 | The self-recursive reassignment terminates for every page list, each recursive call starting with fewer undescribed regions; on success every listed page is described, so the remap stage never meets a missing descriptor |
| `Ownership.Configured` | src/xpf_core/noirhvm.c:1384-1409 | Configuring a request changes the entries of its pages and no others, and never adds a page to the reverse mapping |
| `Ownership.RemapPageView` | src/svm_core/svm_npt.c:533-566 | Remapping a page keeps its host and memory type, sets its rights by its owner as far as the levels above allow, and leaves every other page alone |
| `Ownership.RemappedView` | src/svm_core/svm_npt.c:527-574 | The remap stage sets the rights of exactly the listed pages, whatever the upper levels restrict |
| `Ownership.ExactRightsIff` | src/svm_core/svm_npt.c:544-565 | A page that follows its ownership has exactly its owner's rights if and only if the levels above suffice for them |
| `Ownership.ProtectionSuffices` | src/svm_core/svm_npt.c:318-320 | Write-protecting the region of NoirVisor's page-directory pointers closes that entry, and still suffices for NoirVisor's pages there and any owner elsewhere |
| `OwnershipOutcome.TablesExactly` | src/svm_core/svm_npt.c:590-613 | The pages stage I hands to NoirVisor, computed from the described regions and the next table number alone, are those of just the tables it makes |
| `OwnershipOutcome.TakenAllIff` | src/xpf_core/noirhvm.c:1411-1448 | Handing over a list page by page meets no refusal exactly when its pages are all different and can all be given from the start |
| `OwnershipOutcome.ReassignSucceedsIff` | src/svm_core/svm_npt.c:583-647 | A reassignment succeeds exactly when every listed page may be reassigned and the pages of the tables it makes are all different, not listed, and may be given to NoirVisor |
| `OwnershipOutcome.ReassignEffect` | src/svm_core/svm_npt.c:583-647 | On success each listed page has the entry asked for and its owner's rights as far as the levels above allow, each new table's page is NoirVisor's, and nothing else changed; on failure the pages handed over before the first refusal stay NoirVisor's and no other page changed; no page is ever redirected |
| `OwnershipOutcome.ReassignTables` | src/svm_core/svm_npt.c:590-613 | On success the pages handed over are those of just the tables that were made |
| `OwnershipOutcome.ReassignKeepsGoverned` | src/svm_core/svm_npt.c:583-647 | A page that follows its ownership still does afterwards, success or not, and every page that gets a new owner does |
| `OwnershipOutcome.NoirVisorRefused` | src/xpf_core/noirhvm.c:1428-1429 | A request that lists a page of NoirVisor's fails, and no request changes the entry or the meaning of such a page |
| `OwnershipOutcome.StaleLookupFails` | src/svm_core/svm_npt.c:593-613 | A request fails when making the PDE table of some listed page already makes that page's PTE table, which is then handed over twice |
| `OwnershipOutcome.SpuriousFailure` | src/svm_core/svm_npt.c:593-613 | With the first two tables on pages 1 and 2, reassigning page 0 of a fresh machine fails although every page involved is allowed |
| `OwnershipOutcome.Success` | src/svm_core/svm_npt.c:583-647 | With them in the next 2 MiB it succeeds, with three tables handed over |
| `OwnershipRuns.GoesThroughIff` | src/xpf_core/noirhvm.c:1411-1448 | A reassignment succeeds exactly when every listed page is main memory and not NoirVisor's, none of a request for a secure guest is a secure guest's already and the request is not for sharing, and the new tables' pages are different, not listed, main memory and not NoirVisor's |
| `OwnershipRuns.EntryStep` | src/svm_core/svm_npt.c:583-647 | What one request does to the entry of one page: nothing, or the page becomes NoirVisor's, or the request is granted and the page takes the entry asked for, guest page included, having been neither NoirVisor's nor, for a secure guest, secure |
| `OwnershipRuns.RunGoesOn` | src/svm_core/svm_npt.c:583-647 | After any run of requests, granted or not, every further request can be made and makes it a longer run |
| `OwnershipRuns.SecretsStay` | src/xpf_core/noirhvm.c:1428-1432 | Over any run of requests no page becomes both secure and shared, and no page is taken from NoirVisor |
| `OwnershipRuns.SecurePageIsReleased` | src/xpf_core/noirhvm.c:1430-1431 | Over any run, between two different entries that give a page to a secure guest there is a granted request that took the page, from the first entry, for the host or an insecure guest |
| `OwnershipRuns.SecurePageRefused` | src/xpf_core/noirhvm.c:1430-1431 | A request that would make guest 1's secure page guest 2's is refused |
| `OwnershipRuns.RightsFollowOwner` | src/svm_core/svm_npt.c:527-574 | Over any run, once a page's rights follow its owner, or it was reassigned, the host cannot write it while it is NoirVisor's, nor read, write or reach it from user mode while it is a secure guest's, and may do all else that the levels above allow |
| `OwnershipManager.Hypervisor.Validate` | src/xpf_core/noirhvm.c:1411-1448 | The loop accepts exactly the requests whose every page is mapped, not NoirVisor's, not secure to secure, and not both secure and shared |
| `OwnershipManager.Hypervisor.ReassignRmt` | src/svm_core/svm_exit.c:1249-1252 | In place: all pages are configured if all are allowed, none otherwise |
| `OwnershipManager.Hypervisor.Remap` | src/svm_core/svm_npt.c:527-574 | In place: the remap stage |
| `OwnershipManager.Hypervisor.DescribePage` | src/svm_core/svm_npt.c:592-613 | In place: both lookups first, then each missing level |
| `OwnershipManager.Hypervisor.Reassign` | src/svm_core/svm_npt.c:583-647 | In place: the recursive routine with its three stages |
| `StealthHook.ViolationKeepsInvIff` | src/vt_core/vt_exit.c:1306-1345 | Handling a violation keeps every hooked page in one of its three states, exactly unless the trap is armed for another page and the instruction lies in the page it accesses |
| `StealthHook.ViolationKeepsInv` | src/vt_core/vt_exit.c:1306-1345 | With distinct virtual pages it always does, and the faulting access is then permitted |
| `StealthHook.InvThroughout` | src/vt_core/vt_exit.c:1118-1140 | In every run each hooked page is in one of three states, the third exactly for the pending page while the trap is armed |
| `StealthHook.AccessesSee` | src/vt_core/vt_exit.c:1296-1356 | In every run data accesses see the original and fetches the patched copy, but for the single-stepped page |
| `StealthHook.GetsThroughIff` | src/vt_core/vt_exit.c:1306-1345 | An instruction gets through after finitely many violations, from any state, exactly when it is not fetched from a hooked page that it reads or writes and does not start in |
| `StealthHook.TornNeverSettles` | src/vt_core/vt_exit.c:1322-1345 | Such an instruction always has an access denied, whatever state the violations leave |
| `StealthHook.PingPong` | src/vt_core/vt_exit.c:1322-1345 | An instruction that ends in a hooked page and reads it comes back to the same state after every two violations |
| `StealthHook.Execute` | src/vt_core/vt_exit.c:1296-1356 | Restarting an instruction after each violation terminates with all its fetches and data accesses permitted at once, if it is not fetched from a hooked page that it touches and does not start in |
| `StealthHook.Complete` | src/vt_core/vt_exit.c:1118-1140 | After the trap no page is left open for both |
| `StealthHook.InstructionSees` | src/vt_core/vt_exit.c:1306-1345 | An instruction that gets through is single-stepped exactly when it touches the hooked page it starts in; its data come from originals and it is fetched from patched copies but for that page |
| `StealthHook.HookedCpu.Find` | src/vt_core/vt_exit.c:1291-1305 | The binary search terminates and finds a page exactly when it is hooked, except that with no hooks it takes the first page of memory for one |
| `StealthHook.HookedCpu.HandleViolation` | src/vt_core/vt_exit.c:1281-1356 | In place: the handler finds the page and substitutes it, or goes through a null entry pointer exactly when there is no hook and the violation is on the first page |
| `StealthHook.HookedCpu.HandleTrap` | src/vt_core/vt_exit.c:1118-1140 | In place: the trap handler |
| `CustomMap.WalkersAgree` | src/svm_core/svm_decode.c:31-76 | On every well-formed table, large pages included, the recursive walk and the descriptor-list walk agree on success and on the host page for every access that asks to read |
| `CustomMap.AlwaysAgreeIffReads` | src/svm_core/svm_decode.c:31-76 | The accesses on which the two walks agree for all well-formed tables and all of memory are exactly those that ask to read |
| `CustomMap.SparseWalkersAgreeIff` | src/svm_core/svm_decode.c:31-76 | On tables that mapping calls build, the two walks agree whatever else memory holds exactly for accesses that read or write or lie in a described 2 MiB region |
| `CustomMap.RightAnswerIffExecutable` | src/svm_core/svm_custom.c:1280 | The no-execute test answers as the architecture would exactly when the page is executable or fails another test |
| `CustomMap.LookupIsView` | src/svm_core/svm_custom.c:1272-1338 | On tables built by mapping calls a page has a translation only through its own PTE |
| `CustomMap.CreateTopSets` | src/svm_core/svm_custom.c:1104-1135 | A new PDPTE table is linked from its root entry and zero but for one entry |
| `CustomMap.CreateHugeSets` | src/svm_core/svm_custom.c:1137-1183 | A new PDE table is linked from its PDPTE, the level above made when missing |
| `CustomMap.CreateLargeSets` | src/svm_core/svm_custom.c:1185-1231 | A new PTE table is linked from its PDE, the levels above made when missing |
| `CustomMap.SetPageSparse` | src/svm_core/svm_custom.c:1233-1270 | Mapping a page keeps every level linking exactly the described regions below, and writes one PTE |
| `CustomMap.SetPageIsPointUpdate` | src/svm_core/svm_custom.c:1233-1270 | A mapped page reads back as mapped; every other page's lookup is unchanged for exactly those accesses that ask to read or write, or for all if the region had its table |
| `CustomMap.RangeMapped` | src/svm_core/svm_custom.c:1399-1405 | For every access, the loop maps page i of the range to the i-th host page, leaves holes where it makes a table for other pages, and changes no other page |
| `CustomMap.ClearBitsAgrees` | src/svm_core/svm_custom.c:1427-1481 | Clearing by range succeeds exactly when the pointer walk reaches a present leaf, clears both bits of that leaf only, and changes no translation |
| `CustomMap.RunsRefineMap` | src/svm_core/svm_custom.c:1104-1481 | After any run of mapping calls, bit queries and processor walks the table is well-formed and every access gets what the last mapping call of its page gave, or a hole if only others in its 2 MiB were mapped |
| `CustomMap.GivenToReaders` | src/svm_core/svm_custom.c:1399-1405 | Holes are invisible to accesses that read or write: those get what the last mapping call of their page gave, or nothing |
| `CustomWalk.ProcessorFollowsLeaf` | src/svm_core/svm_custom.c:1041-1102 | Through the tables that mapping calls build, the processor's own walk, with its user, write and no-execute tests at every level, gives each page what the page's own leaf says; no upper level holds an access back |
| `CustomWalk.ProcessorSeesLastMapping` | src/svm_core/svm_custom.c:1027-1270 | After any run of mapping calls, bit queries and guest accesses the processor's walk gives a page the host page and cache attribute of its last mapping call, exactly if that call's attributes say present and user and grant what is asked; nothing before the first call |
| `CustomWalk.RunsSetLeaves` | src/svm_core/svm_custom.c:1027-1481 | The leaf of every page after any run, bit by bit |
| `CustomWalk.LeafIsLastMapping` | src/svm_core/svm_custom.c:1027-1040 | A leaf carries the attributes of the page's last mapping call one by one, no-execute inverted, and is zeroed before the first |
| `CustomWalk.ClearLeaf` | src/svm_core/svm_custom.c:1427-1481 | A bit query succeeds exactly on a present leaf and clears its accessed and dirty bits and nothing else of any page |
| `CustomWalk.BitsTellSince` | src/svm_core/svm_custom.c:1466-1530 | The accessed and dirty bits of a page say exactly whether it was accessed and written since it was last mapped or cleared, over any run |
| `CustomManager.Manager.GetPhysicalMapping` | src/svm_core/svm_custom.c:1272-1338 | The nested list searches compute the pointer walk |
| `CustomManager.Manager.CreateTop` | src/svm_core/svm_custom.c:1104-1135 | In place: the 512 GiB level |
| `CustomManager.Manager.CreateHuge` | src/svm_core/svm_custom.c:1137-1183 | In place: the 1 GiB level |
| `CustomManager.Manager.CreateLarge` | src/svm_core/svm_custom.c:1185-1231 | In place: the 2 MiB level |
| `CustomManager.Manager.SetPageMap` | src/svm_core/svm_custom.c:1233-1270 | In place: the point update |
| `CustomManager.Manager.SetMapping` | src/svm_core/svm_custom.c:1399-1405 | In place: the mapping loop |
| `CustomManager.Manager.ClearAccessingBit` | src/svm_core/svm_custom.c:1427-1481 | In place: the range walk, with its result |
| `NestedVmcb.CopyGroupRead` | src/svm_core/svm_nvcpu.c:203-370 | Each of the thirteen routines sets exactly the fields of its group, each to what the shadow must hold |
| `NestedVmcb.EnterRead` | src/svm_core/svm_nvcpu.c:168-201 | What every field of the shadow holds after an entry |
| `NestedVmcb.EnterClean` | src/svm_core/svm_nvcpu.c:168-201 | Which clean bits an entry takes back: the copied groups' own, but the last-branch bit for the AVIC group |
| `NestedVmcb.LeaveRead` | src/svm_core/svm_nvcpu.c:55-147 | What every field of the guest's VMCB holds after an exit |
| `NestedVmcb.LeaveGives` | src/svm_core/svm_nvcpu.c:55-122 | Field by field: an exit gives the guest's VMCB the shadow's exit code and information, next instruction and fetched bytes, the instruction and stack pointers, rax, flags, privilege level, pending interrupt and all guest registers, the PAT and last-branch state while switched on, and leaves all controls |
| `NestedVmcb.ExitsGive` | src/svm_core/svm_exit.c:1829-1838 | In every run from the start each exit gives the guest hypervisor just that, and right after a stretch of running it is what the guest then had |
| `NestedVmcb.AsidsStayApart` | src/svm_core/svm_nvcpu.c:234-242 | The shadow's address-space id is zero exactly for an unusable guest id; usable ids are above 1 and never coincide |
| `NestedVmcb.AlwaysInterceptBits` | src/svm_core/svm_nvcpu.c:217-219 | CPUID and shutdown are intercepted in every shadow, and all other bits are the guest's |
| `NestedVmcb.EntryIsCoherent` | src/svm_core/svm_nvcpu.c:168-201 | At every entry the shadow equals what copying all thirteen groups would give, the interrupt-table base excepted, whose exact value is stated |
| `NestedVmcb.VmrunGives` | src/svm_core/svm_nvcpu.c:168-201 | Field by field: after any run an entry gives the shadow the guest's pointers, flags, injected event, pending interrupt, TLB control and every group, but for two interceptions always on, the shifted identifier, and NoirVisor's nested table while the guest uses none |
| `NestedVmcb.EntriesGive` | src/svm_core/svm_exit.c:1065-1086 | In every run from the start each entry does so |
| `NestedVmcb.VmrunCleans` | src/svm_core/svm_nvcpu.c:168-201 | Which clean bits an entry leaves the shadow and whose interrupt-table base: a group stays clean if it was, the shadow served this VMCB, and the guest hypervisor says so; the last-branch group only if the AVIC group does too, the AVIC group always |
| `NestedVmcb.ServesAlone` | src/svm_core/svm_nvcpu.c:396-420 | An exit that NoirVisor serves alone changes two registers of the shadow, leaves it wholly clean and the guest's VMCB untouched |
| `NestedVmcb.WritesShow` | src/svm_core/svm_exit.c:1065-1086 | What the guest hypervisor writes to a VMCB's fields and clean bits is there, and nothing else changed |
| `NestedVmcb.CleanBitsAreSound` | src/svm_core/svm_nvcpu.c:174-176 | A set clean bit other than the AVIC bit means the shadow ran before and software has not changed that group since, across evictions |
| `NestedVmcb.AvicBitStays` | src/svm_core/svm_nvcpu.c:351-360 | The AVIC clean bit is never taken back |
| `NestedVmcb.AvicBitLiesIff` | src/svm_core/svm_nvcpu.c:351-360 | It lies exactly when an entry rewrites the group with something new |
| `NestedVmcb.AvicBitLies` | src/svm_core/svm_nvcpu.c:351-360 | A run from the start in which an entry rewrites the group and leaves its clean bit set |
| `NestedVmcb.IdtBaseSurvivesIff` | src/svm_core/svm_nvcpu.c:99-101 | A nested guest keeps its interrupt-table base over an exit and a re-entry exactly when the group was left clean or the bases agree |
| `NestedVmcb.IdtBaseLost` | src/svm_core/svm_nvcpu.c:99-101 | A run from the start in which a nested guest loads its interrupt-table base, exits, and is entered again without it |
| `NestedVmcb.StepKeeps` | src/svm_core/svm_exit.c:1065-1086 | Whatever the guest hypervisor and its guests do within the clean-bit contract, evictions included, the cache invariant holds |
| `NestedVmcb.EntriesInRuns` | src/svm_core/svm_exit.c:1065-1086 | In every run from the start each entry finds the shadow coherent and its clean bits sound |
| `NestedVmcb.BlockDoesNotCollide` | src/svm_core/svm_nvcpu.c:372-384 | VMCBs in one aligned block of sixteen pages never evict each other |
| `NestedVmcb.HashByDigits` | src/svm_core/svm_nvcpu.c:372-384 | Every hexadecimal digit of the page number enters the hash once by exclusive or, from 0xC |
| `NestedPool.HashOf` | src/svm_core/svm_nvcpu.c:372-384 | The loop folds the thirteen digits of the page number into the hash |
| `NestedPool.VmcbPage.CleanGroup` | src/svm_core/svm_nvcpu.c:203-370 | In place: the thirteen routines |
| `NestedPool.PoolNode.SwitchTo` | src/svm_core/svm_nvcpu.c:168-201 | In place: entry |
| `NestedPool.PoolNode.SwitchFrom` | src/svm_core/svm_nvcpu.c:55-147 | In place: copying back on exit |
| `NestedPool.Pool.Vmrun` | src/svm_core/svm_exit.c:1065-1086 | In place: lookup, eviction and entry; no other shadow changes |
| `NestedPool.Pool.Exit` | src/svm_core/svm_exit.c:1829-1838 | In place: the shadow is marked clean and copied back |
| `RegisterCache.AttribRoundTrip` | src/svm_core/svm_def.h:17-18 | Segment attributes survive the VMCB format in the bits 0xF0FF, and the format survives the header in its twelve bits |
| `RegisterCache.RoundTrip` | src/svm_core/svm_custom.c:125-303 | A register loaded and read back is the header value up to attribute bits and the low bits of CR8; EFER.SVME is shadowed exactly |
| `RegisterCache.EntryKeeps` | src/svm_core/svm_custom.c:125-303 | Entry keeps every register's value, leaves every group valid, and a clean bit survives exactly if the processor is the same and all the bit's groups were valid; nothing under it was rewritten |
| `RegisterCache.EntryLeaves` | src/svm_core/svm_custom.c:125-303 | Register by register, what entry leaves in the VMCB: a valid group untouched; of an invalid one the header's values, but that attributes have bits 12 to 15 moved to 8 to 11, CR8 its low four bits, and EFER always SVME |
| `RegisterCache.CodeSegmentAttribs` | src/svm_core/svm_def.h:17-18 | Code-segment attributes 0xA09B are held as 0xA9B, the selector as given |
| `RegisterCache.SvmeAtEntry` | src/svm_core/svm_custom.c:256-262 | Over any run in which the guest leaves SVME set, no entry finds it clear in the VMCB, whatever was edited or dumped; the shadowed bit is the header's if EFER was edited |
| `RegisterCache.CleanAfter` | src/svm_core/svm_custom.c:102-303 | Which clean bits survive an entry, bit by bit, and which groups each needs valid |
| `RegisterCache.OnlyCr2Lost` | src/svm_core/svm_custom.c:170-175 | With CR2 alone invalid exactly its bit is lost |
| `RegisterCache.DumpKeeps` | src/svm_core/svm_custom.c:413-478 | A dump keeps every register's value and the header then shows it, but for the kernel GS base and the TSC offset |
| `RegisterCache.DumpLeaves` | src/svm_core/svm_custom.c:413-478 | Register by register, what a dump leaves in the header: of a valid group the VMCB's values, attributes unpacked, CR8's low four bits, EFER without SVME unless the guest set it; the general-purpose group, the TSC offset and the kernel GS base stay |
| `RegisterCache.ExitLeaves` | src/svm_core/svm_custom.c:26-48 | Every exit saves the four general-purpose registers as they are and has all eight clean bits set |
| `RegisterCache.EditExact` | src/xpf_core/noirhvm.c:483-655 | An edit sets what it writes; another register of the group keeps its value exactly when the group was invalid or the header in step; other groups keep theirs |
| `RegisterCache.EditRspTakesIff` | src/xpf_core/noirhvm.c:201-207 | An edit of the stack pointer alone takes effect exactly when the group is invalid or the value is there already |
| `RegisterCache.KernelGsBaseKeptIff` | src/svm_core/svm_custom.c:400-410 | An FS/GS edit after a run and a dump keeps the guest's kernel GS base exactly when it is still the one in the header |
| `RegisterCache.KernelGsBaseLost` | src/svm_core/svm_custom.c:400-410 | A run, a dump and an edit of another FS or GS register after which the kernel GS base is the one the vCPU was created with |
| `RegisterCache.NothingLost` | src/svm_core/svm_custom.c:125-478 | Over any interleaving of runs, dumps and safe edits every register is what the guest left or the last edit wrote |
| `RegisterCache.RunsExact` | src/svm_core/svm_custom.c:125-478 | Over any interleaving of runs, dumps and edits, safe or not, what every register is and what the header shows of it: a value is lost exactly when an edit passes over a live register the header does not show |
| `RegisterSwitch.CustomVcpu.SwitchToGuest` | src/svm_core/svm_custom.c:95-303 | In place: entry, with the reset of clean bits on a new processor |
| `RegisterSwitch.CustomVcpu.SwitchToHost` | src/svm_core/svm_custom.c:26-48 | In place: the general-purpose group is saved at exit |
| `RegisterSwitch.CustomVcpu.DumpState` | src/svm_core/svm_custom.c:413-478 | In place: the dump |
| `RegisterSwitch.CustomVcpu.EditGroup` | src/xpf_core/noirhvm.c:483-655 | In place: the edit |
| `MappingLocks.StepKeeps` | src/svm_core/svm_custom.c:1396-1413 | Every step of every thread keeps lock ownership, frozen tables and truthful TLB flags |
| `MappingLocks.TableFixedInGuest` | src/svm_core/svm_custom.c:1396-1413 | No mapping call changes the table between a vCPU's entry and exit, in any interleaving, for ids below 255 |
| `MappingLocks.EntryAfterChangeFlushes` | src/svm_core/svm_custom.c:336-340 | The first entry after a change carries a flush request |
| `MappingLocks.EntryFlushesIff` | src/svm_core/svm_custom.c:336-340 | An entry asks for a flush exactly if it is the vCPU's first or a mapping call's invalidation got to the vCPU since its last, in any interleaving |
| `MappingLocks.RequestStands` | src/svm_core/svm_exit.c:1778 | Only the vCPU's own exit resets the request |
| `MappingLocks.RequestIffDue` | src/svm_core/svm_exit.c:1778 | A flush request is up exactly from the entry that needs it until that vCPU next comes back from its guest |
| `MappingLocks.SomeoneMoves` | src/svm_core/svm_custom.c:1396-1398 | Locks are taken in ascending order, so a waiting thread always leads to one that can move |
| `MappingLocks.LastVcpuIsUnprotected` | src/svm_core/svm_custom.c:1396-1398 | With vCPU 255 a reachable run changes the table while it is in its guest |

## Left out

- Allocation failure and cleanup paths, which leave dangling or unlinked descriptors.
- Resetting a PDPTE to a huge leaf, or a PDE whose region has a PTE table to a large one, and the
  inverted `ignore_mt` test of the Intel PDE updater: no modelled caller uses them.
- The `force` argument of the memory-type updaters, which every caller passes as false; only
  `EptMemoryType.Merge` keeps it.
- MTRR emulation run again after ranges are removed, and register types of 8 and above.
- Critical-hypervisor protection, code-integrity entries, MMIO and APIC interception; the entries they
  restrict are allowed for in all results on updates and ownership (`Ownership.ProtectionSuffices`).
- The directory of the reverse mapping and its binary search; it is a map here.
- Reassigning all pages of a virtual machine, and the flush broadcast after a remap.
- Unmapping, the accessed-bit query, and the secure-guest branch of the mapping call.
- The Intel custom page map.
- The search for a cache attribute in the host's PAT: a mapping call's attribute is the index found.
- Hidden state moved by VMLOAD and VMSAVE, nested VMX, event injection into L1 and GIF emulation.
- NestedVmcb.EntryIsCoherent: excepts the interrupt-table base, which the code never copies back; the
  exact condition is `NestedVmcb.IdtBaseSurvivesIff`.
- NestedVmcb.CleanBitsAreSound: excepts the AVIC bit, which the code never clears; the exact condition
  is `NestedVmcb.AvicBitLiesIff`.
- RegisterCache.NothingLost: covers edits that write a whole group, or follow a dump, or find the group
  invalid; all others are covered exactly by `RegisterCache.RunsExact`.
- RegisterSwitch.CustomVcpu.SwitchToGuest: the register groups only, without debug addresses, the
  extended state, event injection and the request for a TLB flush.
- RegisterSwitch.CustomVcpu.SwitchToHost: likewise.
- RegisterCache.EntryKeeps: does not model the virtual-interrupt fields that share the CR8 word, the
  injected event, or the TLB decision taken from EFER.
- RegisterCache.SvmeAtEntry: assumes that a guest leaves SVME set in the VMCB, which the handler of its
  writes to EFER sees to.
- Last-branch, APIC-base and shadow-stack register groups, which entry does not load.
- MappingLocks.TableFixedInGuest: does not cover vCPU 255, which mapping calls do not lock, nor the
  unlocked unmapping after a failed mapping call.
- MappingLocks.SomeoneMoves: does not cover the exclusion taken while a vCPU lock is held when secure
  virtualization is switched on or off.
- Calls of the debugger and logging.
- HookManager.SetPdeTable: searches the PDE list once more after the PTE level is split, where the code
  keeps the descriptor it found before; a region has one descriptor, so both are the same.
- Ownership.Reassign: needs at least one page; with none the code returns an uninitialized status.
- StealthHook.AccessesSee: assumes that hooked virtual pages are distinct and that the instruction
  pointer stays until the trap fires.
