# A verified model of the JOS kernel's memory core

This project models, in Dafny, the parts of a JOS-style x86 teaching kernel whose correctness is not
visible in any one function, and proves what they are for:

- **Virtual memory** (`pmap.c`, `pmap.h`, `inc/mmu.h`, `inc/types.h`): a reference-counted page
  allocator with an intrusive free list, and two-level page tables that live in pages of that same
  allocator. `VmState` gives every operation as a function on a state value. `VmInvariant`,
  `AddressSpace`, `Translation`, `Teardown` and `Lifetime` prove what the operations keep and mean,
  and `RegionCost`, `RegionExact` and `RegionRange` how many free pages they need. `MicroSteps`
  takes them apart into single memory accesses with a processor that fills its translation cache in
  between; `Runs` puts them together into runs; `Isolation` is about what user programs can write.
  `Machine` is the imperative program: page records, link fields and page-table words updated in
  place, each method proved to do to the abstract state what the function of the same name does.
  `BootMap`, `BootMemory`, `BootCost` and `KernelBoot` cover the start: `boot_alloc`, `page_init`,
  the static mappings. `UserMem` and `UserAccess` cover `user_mem_check`, `FreeListSort` and
  `FreeListCheck` the in-place list partition and the checks around it. `SomeStates` constructs
  states, to show that what the theorems speak of occurs.
- **Environments** (`env.c`): `EnvIds` (generation arithmetic), `EnvSystem` (table and memory together,
  over every run), `EnvTable` (the array code on top of `Machine`).
- **Stab search** (`kdebug.c`): `StabSearch`, and `StabEdge` for the two addresses where the key wraps.
- **Memory and text** (`lib/string.c`, `lib/printfmt.c`, `lib/printf.c`, `console.c`): `Memory`,
  `Numbers`, `Format`, `Sinks`, `Printf`, `Cga`. `FormatText` and `NumberText` say what a format and a
  number mean by the parts of their text, without following the code that reads them.

The format of page-table entries is that of section 5.2 of the Intel 80386 Programmer's Reference
Manual, the translation cache that of section 5.2.5. In the model the processor may put any present
translations of the current directory into its cache before, between and after any two memory accesses of
an operation (a count, the list head, one word of memory); only `invlpg` and a load of `cr3` take
translations out.

## How a state is described

`ents` maps a slot (page frame, word index) to the entry stored there if the word has `PTE_P`. A
`pte_t *` is a slot. The methods of `Machine` also say what they leave in the words themselves, those
without `PTE_P` included. `free` is the free list in list order. Five components record roles: the pages
`page_init` released (`pool`), `kern_pgdir`'s frame, live page directories, page tables below UTOP,
page tables above UTOP. The central invariant `Inv` says: the free list has no duplicates and holds only
pages with count 0 that nothing names; the trees have exactly two levels; every directory shares the
kernel half and maps itself at UVPT; and the count of every pool page is the number of live slots naming
it, plus one if it is a live environment's directory. `RefCountsMappings` turns this into a statement
about translations alone.

A panic for lack of memory is a result (`None`, `Panic`, `false`). A panic of `KADDR` or `pa2page` cannot
happen under the invariant: the methods index arrays with those frames and Dafny checks the bounds. The one
exception is `page_lookup` above UTOP, where an entry may name a page past `npages`; its contract says so.

## Where the code and its documentation disagree

- `user_mem_check` answers 0 for ranges whose rounded end wraps past 2^32 (`UserAccess.WrapExample`), and
  for writes to page tables shown in the UVPT window, because it looks at the page-table entry only and the
  self-map has no `PTE_W` (`UserAccess.WindowExample`). It refuses an empty range that starts inside a page
  not mapped, although no byte is asked for (`UserAccess.EmptyExample`). `UserAccess.RightAnswerIff` gives
  the exact ranges and permissions.
- `region_alloc` drops `page_insert`'s result. If the last page's insert fails, that page is lost: it is
  neither mapped nor free. `RegionExact.RegionEnds` says before the call when this happens, when it panics
  and when it succeeds; `SomeStates.SomeLoss` gives such a state for every address. A range whose rounded
  end wraps is cut down to its first page at most, without a panic (`RegionRange.WrapExample`).
  `RegionRange.PromiseIff` says exactly when the range is mapped or the kernel panics.
- `env_setup_vm` and so `env_alloc` panic where their comments promise `-E_NO_MEM`
  (`EnvSystem.AllocPanicsIff`).
- `stab_binsearch`'s comment reads left > right as "no matching stab contains addr"; the code returns
  that, on every table, only when the region has no matching stab (`StabSearch.EmptyReadingRightIff`). With `addr` and
  `addr + 1` both present it loses its place (`StabSearch.AdjacentGoesWrong`), and so it does at 2^32 - 1,
  where `addr + 1` wraps (`StabEdge.TopGoesWrong`). At 2^32 - 2 the key wraps one step later and the two
  values can stand side by side unharmed, unless a halving jumps over the first of the higher entries
  (`StabEdge.ConsecutiveGoesWrong`). `StabEdge.RightOnAllPartsIff` is exact for every address.
- A `%d` of a negative number, or a `%p`, padded with blanks does not parse back
  (`Numbers.NegativeParsesBackIff`, `Format.PointerParsesBackIff`).
- The comment on the flag `-` promises padding on the right; a number is padded on the left, with dashes.
  A field width works for `%s` too, though the comment has it for numbers only (`FormatText.StreamIsOutput`).
- `memset` without assembly counts in an `int` and stores nothing for more than 2^31 bytes
  (`Memory.MemsetC`). At 2^31 its first decrement overflows, which is undefined in C and read here as
  two's-complement wrap.
- The environment id arithmetic adds in `int32_t`; the overflow is read as two's-complement wrap.

## Model

| member | source | states |
|---|---|---|
| Runs.RunKeepsInvariant | pmap.c:323-529 | over every sequence of allocations, frees, walks, inserts, removes, env_setup_vm, env_free, cr3 loads and user stores, with the cache filled at any point within them: counts, free list and page-table trees agree, and after each operation the translation cache holds nothing stale |
| Runs.RunAccounts | pmap.c:351-517 | after any run: a free page has count 0 and is mapped nowhere; a data page's count is the number of (directory, page) pairs below UTOP that translate to it; directories and tables have count 1 and are mapped nowhere below UTOP |
| Runs.StepCoherent | pmap.c:503-529 | whatever is cached before, between and after an operation's accesses, every cached translation equals the table walk of the current directory when it returns, and memory is what the operation makes it |
| MicroSteps.InterleavedCoherent | pmap.c:519-529 | for any list of accesses and any fills between them, only pages whose present translation was changed and not flushed since can be cached stale |
| MicroSteps.RemoveQuiet | pmap.c:503-517 | page_remove access by access: clearing the word exposes one page at most, and the invlpg behind it covers that page |
| MicroSteps.InsertQuiet | pmap.c:453-465 | page_insert access by access leaves no page exposed, remapping the same page with fewer permissions included |
| MicroSteps.SetupQuiet | env.c:160-182 | zeroing, copying and self-mapping a new directory, word by word, exposes no page |
| MicroSteps.EnvFreeQuiet | env.c:346-388 | env_free access by access leaves no page exposed, for the current environment (through the cr3 load) or another |
| MicroSteps.SwappedOrderFails | pmap.c:511-516 | with invlpg before the word is cleared memory ends up the same, but some fill in between leaves a stale translation |
| Isolation.RunKeepsShape | pmap.c:187-230 | over every run the kernel half of kern_pgdir and its page tables stay as mem_init made them, and directory entries below UTOP have pgdir_walk's flags |
| Isolation.UserWritesOnlyData | pmap.c:380-465 | over every run, a page the tables of any address space, or a cached translation, let a user write is user data: no page table, no directory, no kernel memory |
| EnvSystem.SysUserWritesOnlyData | env.c:160-445 | the same over every run of the environment system |
| VmInvariant.WalkInv | pmap.c:380-404 | at every address pgdir_walk keeps the invariant, and a slot it returns is the right word of the table its directory entry names |
| VmInvariant.InsertInv | pmap.c:453-465 | page_insert keeps the invariant in all its cases, through the state where the page holds one reference too many |
| VmInvariant.OneParent | pmap.c:380-404 | a page table hangs from exactly one directory entry |
| Translation.LeafSlotInjective | pmap.c:358-404 | two addresses below UTOP, in the same or different directories, never share a page-table word, nor does an address above UTOP |
| Translation.InsertUpdatesMap | pmap.c:428-465 | on 0 page_insert changes the entry of one page of one directory to (pp, perm and PTE_P); on -E_NO_MEM the state is unchanged |
| Translation.InsertCounts | pmap.c:440-465 | page_insert's effect on every count and on the free list: the new page gains one, the page mapped before loses one and is freed exactly at zero, a new table is taken from the list |
| Translation.ReinsertKeepsCounts | pmap.c:440-465 | re-inserting the page already mapped there leaves its count as it is and does not free it |
| Teardown.RemoveUpdatesMap | pmap.c:489-517 | page_remove clears one entry of one address space and frees the page exactly when that was its last reference |
| Teardown.RefCountsMappings | pmap.c:351-517 | pp_ref of a page that is no directory or table equals the number of its mappings below UTOP |
| AddressSpace.EnvSetupInv | env.c:160-182 | env_setup_vm keeps the invariant and makes a directory of a page that was free |
| AddressSpace.EnvFreeEffect | env.c:346-394 | env_free leaves in memory exactly the entries outside the directory's user half and its tables, only drops references, and frees exactly the pages whose count reached zero |
| AddressSpace.UnmapTableEffect | env.c:374-378 | the inner loop empties one page table and touches no other entry |
| AddressSpace.FreeUserEffect | env.c:362-383 | the outer loop empties the user half of the directory and removes exactly its tables |
| Teardown.EnvFreeReturnsExactly | env.c:346-394 | a page's count drops by the references the environment held; it becomes free exactly when those were all; directory and tables always do |
| Teardown.EnvFreeLeavesOthers | env.c:346-394 | every translation of every other directory survives env_free |
| Lifetime.LifetimeRoundTrip | env.c:160-394 | env_setup_vm, any region_alloc calls below UTOP, env_free: all counts and live entries are restored, and the free pages too, short of exactly the pages whose page_insert failed |
| RegionCost.LifetimeRestores | env.c:160-394 | with a page for the directory, one for each page and one for each directory entry touched free before, nothing panics or is lost and the free pages are restored in full, overlapping regions included |
| RegionExact.LifetimeSucceedsIff | env.c:160-271 | exactly when, before each page in turn, the directory, the distinct pages so far, this page and the tables up to it fit into the free pages, do all calls succeed, in whatever order the regions overlap |
| RegionCost.EnoughPages | env.c:255-271 | with a page for each page of the region and one for each missing table free, region_alloc succeeds and loses nothing, whatever was mapped there |
| RegionExact.RegionEnds | env.c:255-271 | whatever is mapped: it succeeds exactly when before each page the free pages and those it has freed by replacing their last mapping cover the pages and tables taken, this page and its table; it loses a page exactly when only the last page falls short, by a table it alone needs; otherwise it panics |
| RegionExact.VisitsEnd | env.c:260-264 | the same for any sequence of pages, repeated or not |
| RegionExact.BalanceStep | env.c:261-263 | what one round takes from the free list and gives back to it |
| RegionRange.PromiseIff | env.c:249-271 | by address and length: every page with a byte of the range is mapped, or the kernel panics, exactly if the range is empty, or does not wrap and does not lose its last page, or wraps and panics on its first page |
| RegionRange.WrapExample | env.c:259-260 | a wrapping range on which it returns in every state with nothing mapped |
| RegionCost.LosesThePage | env.c:261-263 | with one page free and no table for the address, that page ends up neither mapped nor free |
| Lifetime.RegionMaps | env.c:255-271 | region_alloc maps every page of the region and nothing else; only the last page can be missing, and then memory is exhausted (RegionExact.RegionEnds says when) |
| Lifetime.InsertHeld | pmap.c:453-465 | a page taken from the allocator stops being held exactly when page_insert succeeds |
| BootMap.BootMapEffect | pmap.c:416-426 | boot_map_region, if it returns, maps page i of the range to page i of the target with the flags, leaves every other translation and all mapped pages' counts, and adds one table per 4 MB touched |
| BootMap.MemInitChecks | pmap.c:187-238 | after mem_init's four calls everything check_kern_pgdir (pmap.c:744-790) asserts holds, for every npages up to 65536, and the user half of kern_pgdir is empty |
| BootCost.MemInitReturnsIff | pmap.c:187-239 | the four calls return exactly when 67 pages are free, and take the first 67 of the list |
| FreeListCheck.InitPassesIff | pmap.c:630-653 | on page_init's list every assertion about an address holds, and check_page_free_list passes exactly when a page of base memory beside page 0 and one of extended memory behind the chunks exist |
| FreeListCheck.RestPassesIff | pmap.c:630-653 | after pages have been taken from the front, as for check_page_free_list(0) at the end of mem_init, it passes exactly when both kinds of memory are left |
| FreeListCheck.ListedOkIs | pmap.c:638-644 | what is asserted of a listed page, in addresses |
| Machine.Machine.CheckPageFreeList | pmap.c:599-655 | panics exactly when the list is empty, holds a page it should not, or lacks one kind of memory; if asked it puts the pages below 4 MB first, keeping the order among them and among the others, and else leaves the list; it writes 0x97 over the first 128 bytes of listed pages (below 4 MB if asked) and nothing else |
| Isolation.MemInitShaped | pmap.c:187-230 | after them every kernel page is mapped as asked and nothing else is |
| BootMemory.BootHeap.BootAlloc | pmap.c:79-109 | boot_alloc returns the next free address and advances it, page aligned, by n |
| BootMemory.BootHeap.Chunks | pmap.c:135-162 | the directory, pages[] and envs[] lie page aligned one after another above the kernel image, up to the next free address |
| Machine.Machine.StartMemory | pmap.c:135-170 | from memory with arbitrary contents, mem_init up to page_init leaves every word of kern_pgdir 0 but the self-map, no other word changed, and page_init's list |
| Machine.Machine.MapKernelHalf | pmap.c:187-230 | the four calls with their addresses, sizes and permissions do what MemInit describes, panics included; every word they do not make present is as it was, or 0 in a page that became a table |
| Machine.Machine.MemInit | pmap.c:121-242 | from memory with arbitrary contents to check_kern_pgdir: it returns exactly when check_page_free_list(1) passes on page_init's list and the list has 67 pages or more; then the invariant, the kernel half and cache coherence hold, check_kern_pgdir's assertions hold (the entries it wants to be 0 are 0, not only absent), the free list is the reordered one without its first 67 pages, and only pages page_init listed are under page_alloc's control |
| Machine.ReorderedBooted | pmap.c:609-622 | check_page_free_list's reordering leaves a state after page_init such a state |
| KernelBoot.MemInit | pmap.c:121-242 | from the linker's end symbol on: it returns exactly when there is a page of base memory beside page 0, one behind the chunks, and 67 in all; then no run ever makes page_alloc hand out page 0 or a page overlapping the I/O hole, the kernel image or one of the three chunks boot_alloc returned |
| KernelBoot.AllocatedFromPool | pmap.c:323-334 | after any run page_alloc takes pages from page_init's pool only |
| EnvTable.EnvTable.Boot | init.c:31-35 | mem_init and env_init establish the system invariant that every run keeps |
| BootMemory.MedIsNextFree | pmap.c:302-305 | med, computed from the end of envs[], is the page of boot_alloc's next free address |
| BootMemory.InitListPages | pmap.c:278-312 | page_init's list holds exactly the pages [1, npages_basemem) and [med, npages), each once |
| BootMemory.InitListFalls | pmap.c:298-311 | in page_init's list every page stands before all lower ones |
| BootMemory.ListedPagesSafe | pmap.c:278-312 | no listed page is page 0 or overlaps the I/O hole, the kernel image or a boot_alloc chunk |
| BootMemory.BootedInv | pmap.c:135-170 | the state after page_init satisfies the invariant |
| BootMemory.RunPool | pmap.c:323-345 | no operation changes which pages are under page_alloc's control |
| BootMemory.EveryAllocatedPageSafe | pmap.c:278-345 | from boot through any run, page_alloc never hands out page 0 or a page overlapping the I/O hole, the kernel image or a boot_alloc chunk |
| FreeLists.ChainDistinct | pmap.c:340-345 | a null-terminated chain of links visits no node twice |
| FreeLists.SelectOrder | pmap.c:609-622 | each half of the partition keeps the original order |
| FreeListSort.PartitionKeepsPages | pmap.c:609-622 | low and high pages together are the original list with its multiplicities |
| FreeListSort.SortStep | pmap.c:614-618 | one round of the loop moves one page to the open end of its list, whether the tail points at a local head or at a link field |
| FreeListSort.LowPagesFirst | pmap.c:609-622 | for every null-terminated list the in-place result is the pages with addresses below limit * 4 MB followed by those at or above it, each in order, and no other link is written |
| FreeListSort.HighIs | pmap.c:615 | the shift-and-mask test of the loop tells whether the page's address is at or above limit * 4 MB |
| FreeListSort.PartitionIsLowFirst | pmap.c:609-622 | low pages then high pages, in plain addresses: there is a place in the list before which every address is below limit * 4 MB and from which none is; both parts keep the old order and together have the old pages |
| UserAccess.RightAnswerIff | pmap.c:532-571 | over all states after boot, user_mem_check's answer is the promised one (every page with a byte of the range below ULIM, with permission at both levels of the tables) exactly for the ranges and permissions of RightRange |
| UserAccess.PageAnswer | pmap.c:560-565 | page by page it accepts what the tables allow, and besides that exactly writes to page tables shown in the UVPT window |
| UserAccess.RangeAnswer | pmap.c:552-571 | in every state after boot the answer is right for those ranges |
| UserMem.TouchedPages | pmap.c:532-541 | the pages judged by are those with a byte of the range |
| UserMem.Bounds | pmap.c:535-560 | first and last page of the rounded range; without wrap it spans len/PGSIZE plus 0, 1 or 2 pages; with wrap at most one |
| UserAccess.WrapExample | pmap.c:556-558 | in every state a wrapping range from the user stack to the top of the address space is accepted, and should not be |
| UserAccess.EmptyExample | pmap.c:556-566 | an empty range inside an unmapped page is refused, and should not be |
| UserAccess.WindowExample | pmap.c:563 | in every environment a page-table page in the UVPT window is accepted for writing, and should not be |
| UserMem.PermTest | pmap.c:563 | the mask test on the stored word says that the flag bits include all of perm |
| Machine.Machine.PageAlloc | pmap.c:323-334 | takes the head of the list, None if there is none; with ALLOC_ZERO all 1024 words of the page are 0 and no other word changes, without it none does |
| Machine.Machine.ZeroPage | pmap.c:329-330 | every word of the page becomes 0, every other word is untouched |
| Machine.Machine.PageFree | pmap.c:340-345 | the page becomes the head of the list |
| Machine.Machine.PageDecref | pmap.c:351-356 | drops one reference, frees at zero |
| Machine.Machine.PgdirWalk | pmap.c:380-404 | on words and addresses, does what the abstract walk does; a new table is zeroed and its entry is page2pa with PTE_P, PTE_U and PTE_W, no other word changes; without create nothing does |
| Machine.Machine.PageLookup | pmap.c:478-486 | at every address finds the present entry and its page, changes nothing |
| Machine.Machine.CheckVa2pa | pmap.c:797-809 | the physical address of the page the two-level translation gives, or ~0, at every address |
| Machine.Machine.PageRemove | pmap.c:503-517 | refines the abstract removal, writes 0 to the one word found and nothing else, and leaves nothing stale in the cache, whatever the processor caches between its accesses |
| Machine.Machine.TlbInvalidate | pmap.c:523-529 | drops the cached translation of one page |
| Machine.Machine.PageInsert | pmap.c:453-465 | refines the abstract insertion, keeps the invariant and, with fills in between, the cache sound; returns 0 or -E_NO_MEM; apart from the walk's table it writes one word, the page's address with perm and PTE_P |
| Machine.Machine.UserMemCheck | pmap.c:552-571 | 0 exactly when every page of the rounded range is below ULIM and present with all of perm; else user_mem_check_addr is the larger of va and the first failing page's start |
| Machine.Machine.PageInit | pmap.c:278-312 | builds the list in its exact order, clears exactly the counts of the listed pages |
| Machine.Machine.ReorderFreeList | pmap.c:609-622 | the kernel's free list becomes the pages below the limit (in units of 4 MB), then those at or above it, in plain addresses; same pages, order kept within each part, nothing else changes |
| Machine.Machine.BootMapRegion | pmap.c:416-426 | the loop over 32-bit addresses refines the abstract region mapping, panics included; a word it does not make present is as it was, or 0 in a page that became a table |
| Machine.Machine.EnvSetupVm | env.c:160-182 | the new directory holds every word of kern_pgdir but its own self-map, no other word changes; refines the abstract set-up |
| Machine.Machine.RegionAlloc | env.c:255-271 | the loop over 32-bit addresses refines the abstract allocation; a word it does not make present is as it was, or 0 in a page that became a table |
| Machine.Machine.EnvFree | env.c:346-388 | the nested loops over words refine the abstract tear-down and, with fills in between, keep the cache sound; words are only cleared, and only present ones |
| Mmu.Fields | inc/mmu.h:29-76 | the shift-and-mask macros cut an address into directory index, table index and offset |
| Mmu.Recompose | inc/mmu.h:32-42 | PGADDR builds the address whose fields are its arguments |
| Mmu.Decompose | inc/mmu.h:25-42 | PGADDR of an address's own fields is the address |
| Mmu.PteRoundTrip | inc/mmu.h:57-76 | the word stored for a page is its address plus perm and PTE_P; it is present, names the page, and carries the flags |
| Mmu.RoundUpCorrect | inc/types.h:56-68 | ROUNDUP is the next multiple of the page size exactly when the addition does not wrap |
| Mmu.PagesRoundTrip | pmap.h:69-81 | pa2page undoes page2pa |
| Mmu.KernelAddressRoundTrip | pmap.h:28-46 | KADDR adds KERNBASE for pages below npages; PADDR undoes it exactly for the 256 MB mapped at KERNBASE |
| Bits.AndCovers | pmap.c:563 | a mask test equal to the mask says that every bit of the mask is set |
| Bits.OrBits | pmap.c:463 | the bits of a combined mask are those of its parts |
| EnvIds.Successor | env.c:205-209 | the id computed from the slot's old id, signed wrap included, is the next one of a closed form |
| EnvIds.IdShape | env.c:205-209 | every id is positive and its low ten bits are the slot |
| EnvIds.IdRepeatsIff | env.c:205-209 | two allocations of a slot get the same id exactly when they are a multiple of 524287 apart |
| EnvIds.StaleUntilCycle | env.c:205-209 | an id differs from the next 524286 of its slot and recurs at the 524287th |
| EnvIds.EnvxIsMod | env.c:88 | ENVX of a two's-complement id is the id modulo 1024 |
| EnvSystem.SysRunInv | env.c:191-445 | over every run of env_alloc, env_free, env_run and memory operations, with cache fills inside them: table, ids and memory agree, live environments own distinct directories, and the processor's directory is always live |
| EnvSystem.DropEnabled | env.c:353-357 | env_free never tears down the directory in use |
| EnvSystem.LiveIds | env.c:72-106 | live environments have distinct positive ids that carry their slot, and envid2env finds each |
| EnvSystem.FindsByIdIff | env.c:72-106 | for a nonzero id envid2env finds e exactly when e is live with that id and, under checkperm, is the current environment or its child |
| EnvSystem.ZeroIsCurrent | env.c:77-81 | id 0 is the current environment, with or without checkperm |
| EnvSystem.AllocPanicsIff | env.c:198-203 | env_alloc panics exactly when a slot is free and no page is; it never returns -E_NO_MEM; when it makes no environment it changes nothing |
| EnvSystem.NewEnvironment | env.c:191-246 | env_alloc takes the first free slot, makes it runnable with the given parent, and leaves all others and curenv; under checkperm the new id is usable exactly by its parent, or when curenv still names the slot |
| EnvSystem.StaleIdIff | env.c:83-92 | after any run an old id is accepted exactly when its slot is live and was reallocated a multiple of 524287 times |
| EnvSystem.FirstSys | env.c:114-127 | the table env_init leaves satisfies the invariant |
| EnvTable.EnvTable.EnvInit | env.c:114-127 | all slots on the list in array order, ids 0 |
| EnvTable.EnvTable.Envid2Env | env.c:72-106 | id 0 gives 0 and curenv; any other id gives 0 and slot id % 1024 if that is live with this id and, under checkperm, is the current environment or its child, and else -E_BAD_ENV and NULL |
| EnvTable.EnvTable.EnvAlloc | env.c:191-246 | refines the abstract allocation and keeps the system invariant |
| EnvTable.EnvTable.EnvFree | env.c:346-394 | refines the abstract removal and keeps the system invariant: the slot becomes free, without a directory and first on the list, no other slot changes |
| EnvTable.EnvTable.EnvRun | env.c:435-445 | the environment is running, is curenv, and its directory is in cr3; no other slot and nothing else in memory changes; system invariant kept |
| StabSearch.SearchBrackets | kdebug.c:39-43 | on a sorted region left is the last matching entry at or below addr and right ends just before the next; without a matching entry right is left - 1 |
| StabEdge.RightOnAllPartsIff | kdebug.c:59-103 | for every address: the search is right on every part of a sorted region exactly when addr, if it occurs, does not wrap and addr + 1 does not occur, or when addr is 2^32 - 2 and the two values are snug |
| StabEdge.SingleIsSnug | kdebug.c:84-90 | at 2^32 - 2 a single entry with addr + 1 right behind the last with addr does no harm |
| StabEdge.ConsecutiveGoesWrong | kdebug.c:84-90 | at 2^32 - 2 consecutive entries alone are not enough: four of each, and the search is wrong |
| StabEdge.TopGoesWrong | kdebug.c:84-90 | at 2^32 - 1 every entry with addr is lost by some search |
| StabEdge.SecondKey | kdebug.c:65-91 | at 2^32 - 2, after addr has been met, the search lands on the first entry with addr + 1 exactly if the halving does not jump over it |
| StabSearch.AdjacentGoesWrong | kdebug.c:84-90 | with addr and addr + 1 side by side the search returns the wrong entry |
| StabSearch.EmptyAnswerIff | kdebug.c:41-43 | on every table and at every address, left > right comes back exactly when no entry matches the type |
| StabSearch.EmptyReadingRightIff | kdebug.c:41-43 | on every table and at every address, when the comment's reading of left > right is right |
| StabSearch.WrapExample | kdebug.c:89 | the key wraps at the top of the address space and the entry is lost |
| StabSearch.ExactMatchSees | kdebug.c:84-90 | after an exact match fewer entries remain that the key can still reach: the termination measure |
| StabSearch.StabBinsearch | kdebug.c:59-103 | the loops end on every table, sorted or not, and every address, with the result described above |
| Memory.Memmove | lib/string.c:141-169 | for every overlap, alignment and length the destination holds the old source bytes and nothing else changes |
| Memory.MovedAt | lib/string.c:141-169 | the result byte by byte: inside the destination the old source byte at the same offset, elsewhere the old byte |
| Memory.MemmoveC | lib/string.c:187-205 | the byte-wise version does the same |
| Memory.MovslUp | lib/string.c:161-163 | forward word copy |
| Memory.MovslDown | lib/string.c:150-154 | backward word copy |
| Memory.WordsCoverIff | lib/string.c:152-163 | moving n/4 words moves n bytes exactly when 4 divides n |
| Memory.SplatBytes | lib/string.c:129-130 | each byte of the word memset builds is the low byte of c |
| Memory.Memset | lib/string.c:121-139 | n bytes become the low byte of c, by words or by bytes |
| Memory.MemsetC | lib/string.c:173-185 | the same up to 2^31 bytes, the overflow at 2^31 read as wrap; nothing beyond |
| Numbers.EmitsField | lib/printfmt.c:35-50 | the recursion emits the digits, padded on the left to the width |
| Numbers.DigitsValue | lib/printfmt.c:40-49 | the digits denote the number |
| Numbers.DigitsNormal | lib/printfmt.c:40-49 | the digits have no leading zero, and 0 is one digit |
| Numbers.HexDigits | lib/printfmt.c:49 | digit characters are those of 0123456789abcdef |
| Numbers.ParsesBack | lib/printfmt.c:35-50 | a number below 2^31 printed in base 2 to 16 with blank or zero padding is read back by strtol (lib/string.c:239-284), to the end of the text |
| Numbers.NegativeParsesBackIff | lib/printfmt.c:191-198 | a negative %d is read back exactly when no blank falls between sign and digits |
| Numbers.StrtolLoop | lib/string.c:239-284 | strtol's loops compute the value and end pointer of the recursive reading |
| NumberText.StrtolReads | lib/string.c:239-284 | blanks and tabs, an optional + or -, the prefix 0x or 0 where the base allows it, digits of either case in base 2 to 36, then anything else: the value is that of the digits, negated after -, and endptr is where the rest begins |
| Sinks.SprintBuf.Sprintputch | lib/printfmt.c:266-272 | stores while there is room, always counts |
| Sinks.PrintBuf.Putch | lib/printf.c:26-35 | flushed chunks and buffer together are what was sent |
| Format.ErrorTextIsStream | lib/printfmt.c:164-172 | the nested printfmt calls of %e send the text the model gives for it |
| FormatText.StreamIsOutput | lib/printfmt.c:82-248 | for every format made of plain characters and items (%, an optional 0 or -, an optional #, a width in digits or *, a precision in digits or * or a bare dot, any number of l, a conversion), with arguments in the range of their types: numbers have their sign, the digits of the argument, and padding on the left in the character flagged; strings are cut, made printable under #, and padded on the side flagged; %e sends the text of its code; an unknown conversion is sent as it stands |
| FormatText.StreamOfPiece | lib/printfmt.c:82-248 | the same for one item wherever it stands in a format, with the arguments it uses up |
| FormatText.ReadsItem | lib/printfmt.c:97-162 | the switch reads an item to its conversion character and arrives with its flags and arguments |
| FormatText.EightHexDigits | lib/printfmt.c:113-115 | %08x of a 32-bit value sends eight hexadecimal digits that denote it |
| Format.ConversionParsesBack | lib/printfmt.c:190-229 | what %d, %u, %o and %x print, at any width, is read back by strtol in that conversion's base |
| Format.PointerParsesBackIff | lib/printfmt.c:215-222 | %p is read back, prefix included, exactly when no blank falls between prefix and digits |
| Format.StringFieldLength | lib/printfmt.c:174-188 | a string conversion is exactly as long as the width or the cut string |
| Printf.PrintString | lib/printfmt.c:174-188 | the three loops of %s send padding, cut string, padding |
| Printf.PrintNum | lib/printfmt.c:35-50 | the recursion, sending to any receiver |
| Printf.VPrintFmt | lib/printfmt.c:82-248 | whatever the receiver, it is sent exactly the stream the format and the arguments stand for, and so, for every way to read the format as pieces, what FormatText says they stand for |
| Printf.VSnprintf | lib/printfmt.c:274-289 | the buffer holds the first n - 1 characters and a NUL, the rest of it is untouched, the untruncated length is returned |
| Printf.VCPrintf | lib/printf.c:37-48 | the chunks concatenate to the stream, none exceeds 255 bytes, the length is returned |
| Cga.PutKeepsHistory | console.c:162-202 | a character changes at most the cell at or before the cursor of the unbounded screen |
| Cga.TextAppears | console.c:165-193 | plain text appears cell by cell from the cursor on and changes nothing else, however often the screen scrolls meanwhile |
| Cga.CharacterShows | console.c:165-193 | any character but \b, \t, \n and \r is stored under the cursor, with its attribute or white on black, and the cursor moves on; nothing else changes |
| Cga.BackspaceErases | console.c:171-174 | backspace moves the cursor back and leaves a blank there, nothing else changes; at the start of the window it does nothing |
| Cga.EraseUndoes | console.c:170-174 | a character that does not scroll, then backspace: the cursor is back and the cell is blank |
| Cga.TabIsFiveBlanks | console.c:182-188 | a tab moves the cursor by five, blanks exactly those five cells and changes nothing else |
| Cga.WindowMovesIff | console.c:195-202 | the window moves down one row exactly on a character in its last cell or a newline in its last row |
| Cga.RowStarts | console.c:176-181 | return goes to the start of the row, newline to the start of the next |
| Cga.WindowOnlyGrows | console.c:195-202 | the window onto the unbounded screen only moves down |
| Cga.Crt.Scroll | console.c:195-202 | rows move up by one, the last row becomes blank |
| Cga.Crt.CgaPutc | console.c:162-209 | for every character sequence the cursor stays below CRT_SIZE and the buffer is a window onto the unbounded screen with the same text typed |

## Left out

- Runs.RunKeepsInvariant: page_insert, page_remove and creating walks at or above UTOP are not steps of a run, because the self-map at UVPT makes a directory its own page table there; lookups in that area are modelled.
- VmInvariant.WalkInv: walks that create a table at or above UTOP are for kern_pgdir before the first environment, because a later table would not reach the directories that exist.
- VmInvariant.InsertInv: addresses at or above UTOP are excluded, for the same reason.
- Translation.InsertUpdatesMap: addresses at or above UTOP are excluded, for the same reason.
- Translation.InsertCounts: addresses at or above UTOP are excluded, for the same reason.
- Translation.ReinsertKeepsCounts: addresses at or above UTOP are excluded, for the same reason.
- Teardown.RemoveUpdatesMap: addresses at or above UTOP are excluded, for the same reason.
- Machine.Machine.PageInsert: addresses at or above UTOP are excluded, for the same reason.
- Machine.Machine.PageRemove: addresses at or above UTOP are excluded, for the same reason.
- Machine.Machine.RegionAlloc: ranges whose rounded end, after a wrap if there is one, lies above UTOP are excluded, for the same reason.
- Machine.Machine.UserMemCheck: perm is taken below 0x1000, the low 12 bits that are permissions.
- UserAccess.RightAnswerIff: likewise perm is taken below 0x1000.
- BootMap.BootMapEffect: boot_map_region is modelled for kern_pgdir before the first environment, which is the only place the kernel calls it, and outside UVPT's 4 MB.
- Machine.Machine.BootMapRegion: likewise for kern_pgdir before the first environment, and outside UVPT's 4 MB.
- Machine.Machine.MemInit: check_page_alloc and check_page, which run between check_page_free_list(1) and the four calls and put back what they take in another order, are not modelled; BootMap.MemInitChecks and BootCost.MemInitReturnsIff hold for the list in any order. It stops before lcr3 and check_page_free_list(0) (FreeListCheck.RestPassesIff).
- BootMap.MemInitChecks: the check `pgdir[i] == 0` appears as "not present" here; that the words are 0 is stated by Machine.Machine.MemInit, where words are.
- Machine.Machine.EnvSetupVm: page contents are reached by page number, not by kernel virtual address; that KADDR and PADDR undo each other is exact for 256 MB (KernelAddressRoundTrip).
- BootMemory.BootHeap.Chunks: requires that the chunks stay below 2^32; boot_alloc itself does not check this, and BootAlloc models the wrap.
- FormatText.StreamIsOutput: flags stand once, before the width; a precision of 0 is not covered (the code takes its 0 for the flag). The extra cprintf of `%o` and overflows are left out as for Printf.VPrintFmt.
- NumberText.StrtolReads: values of 2^31 and more, on which the source's sum overflows, are not covered.
- Printf.VPrintFmt: the extra debugging cprintf of `%o` is not part of the stream, an argument of the wrong type reads as 0 or NULL, and overflow of the width field and INT_MIN under `%e` are undefined in C and not modelled.
- EnvTable.EnvTable.EnvRun: stops at env_pop_tf, which does not return, and omits env_runs; that at most one environment is running is not claimed, because the code tests the new environment's status, not the old one's.
- StabSearch.StabBinsearch: tables of 2^30 entries or more, where the sum of two indices could overflow, are excluded.
- Memory.Memmove: ranges that wrap past the end of the address space are excluded.
- Memory.MemmoveC: likewise.
- Cga.Crt.CgaPutc: cursor register writes are left out, and a tab's five blanks go to this screen only, not also to the serial and parallel ports.
- inc/env.h and the definition of struct PageInfo are not part of this model: fields are taken from their use, structure sizes are parameters, NENV is 1024, and pp_ref does not overflow.
- env_init never writes env_status; the envs array is taken to start zeroed. env_type, env_runs and the saved registers are omitted.
- cr3 before mem_init's first load, and the entry page tables.
- check_page, check_page_alloc and check_page_installed_pgdir.
- The accessed and dirty bits, which the processor sets in page-table words itself: flags are those the kernel wrote, so the equality of shared kernel entries and the flags of directory entries are up to these bits.
- load_icode, the ELF loaders, env_create, traps, system calls, the monitor.
- debuginfo_eip's use of the search, string handling around it.
- The kernel's own cprintf count, the console input ring, the keyboard, port I/O.
- The remaining string functions of lib/string.c and readline: easy members.
