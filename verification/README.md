# Verified models of the CS 300 systems projects

Dafny 4.11 models of the implemented parts of the CS 300 project repository, with proofs about them: the WeensyOS
page-table iterators and their clients, the kernel's allocator, scheduler, console and number routines, the C++
static-initialisation guard, Vunmo's connection locking, hello pairing and ledger, the randomised base allocator of
`dmalloc`, and `stride_cat`. `dafny verify dfyconfig.toml` checks everything.

| file | what it models |
|---|---|
| `Basics.dfy` | definitions shared by the modules |
| `Paging.dfy` | page-table words, memory, 64-bit addresses, the plain root-to-leaf walk (Intel SDM volume 3A, section 4.5), the tables of an address space |
| `PageEdits.dfy` | what storing one entry does to all walks when the tables form a tree |
| `PhysMemory.dfy` | physical memory and `kalloc` |
| `VirtualMemory.dfy` | `vmiter` |
| `PageTablePages.dfy` | `ptiter`, its post-order, and the documented free-as-you-go loop |
| `MemoryUsage.dfy` | `memusage::refresh` |
| `KernelBoot.dfy` | the kernel's page table: its boot-time tables and both identity-map loops |
| `InitGuard.dfy` | `__cxa_guard_acquire` / `__cxa_guard_release` for any number of threads (Itanium C++ ABI, section 3.3.2) |
| `ConnLocks.dfy` | `client_conns_mtx` and the per-client mutexes in the four server functions that take them |
| `ConnCalls.dfy` | what the calls of that protocol do to clients and descriptors, in every interleaving |
| `HelloPairing.dfy` | `accept_client` |
| `Ledger.dfy` | the request handlers and the client's answer to a charge |
| `StrideCat.dfy` | the strided copy loop |
| `Numbers.dfy` | `strtoul`, `strtol`, `fill_numbuf` |
| `Console.dfy` | `memmove`, `console_printer`, `console_puts` |
| `BaseAlloc.dfy` | `base_malloc`, `base_free`, the exit handler |
| `Scheduler.dfy` | `schedule`, `run` |

## How the model represents the code

- A 64-bit page-table word is split at bit 12: `Word(page, low)`, where `low` is the set of positions of its low 1 bits,
  so `&` is intersection and `|` is union. `PTE_PAMASK` is `page % 2^40`. Flag words of the memory viewer are sets of bit
  positions in the same way.
- Memory maps page numbers to tables of 512 words; a page that is not a key holds zeros. A pointer to an entry is a
  (table, index) pair, or `ZeroEntry` for the iterator's private zero word.
- `va >> (12 + 9 * level)` is `Shift`, `(va | pageoffmask(level)) + 1` is `RegionEnd` (with 64-bit wrap-around), and
  `((a ^ b) & ~pageoffmask(level)) != 0` is an inequality of shifts. Large pages are handled as in `vmiter::pa`: bit 12 of the frame
  is cleared and the whole offset added, which is the hardware's address when the entry's reserved bits are 0.
- A failed kernel `assert` halts: where the source asserts, the model has a precondition (`MayMap` for `try_map`) or
  stops (`VmIter.Run`, `IdentityMap`). The panic in `vmiter::down` sets the flag `panicked`; what is proved of a call
  holds whether or not it is set.
- Random numbers, the results of `malloc`, read and write outcomes, poll results, map iteration order and thread
  interleaving are parameters or choices over which the theorems quantify. Atomics are sequentially consistent.
- The console is modelled cell by cell: `memmove` of whole 16-bit cells has the same effect as of their bytes.

## Model

| member | source | states |
|---|---|---|
| `Paging.EntryNoParts` | weensyos/x86-64.h:56-67 | the number of a region and the page indexes of an address determine each other; every canonical address lies below one root table |
| `Paging.CanonicalByRegion` | weensyos/x86-64.h:65-67 | whether an address is canonical depends only on its level-3 region |
| `Paging.RegionLimitFacts` | weensyos/x86-64.h:59-61 | the end of a region is past the address, aligned, does not exceed 2^64 nor, from a low address, `VA_LOWEND`; all addresses up to it share the region |
| `Paging.WalkTable` | weensyos/k-vmiter.cc:5-17 | the walk to a canonical address stops in the table that covers the address at that level |
| `Paging.WalkSameRegion` | weensyos/k-vmiter.cc:5-17 | addresses in the region of the entry where a walk stops have the same walk |
| `Paging.WalkStops` | weensyos/k-vmiter.cc:5-17 | the walk stops at the entry that covers the address there, at level 0 or at the first entry that leads to no table |
| `Paging.PermMeans` | weensyos/k-vmiter.hh:150-152 | perm(p) holds at an address iff every entry from the root table down to where the walk stops has all bits of p; at a non-canonical address only for p = 0 |
| `Paging.PermIsRights` | weensyos/k-vmiter.hh:150-158 | for P, W and U, perm(p) holds iff the address is mapped with these rights |
| `Paging.RightsMean` | weensyos/k-vmiter.hh:139-149 | the rights of a mapping are those all entries of its walk have |
| `PhysMemory.Machine.Kalloc` | weensyos/kernel.cc:116-133 | returns the first free page, marks it used and fills it; no page below it stays free; null iff the request exceeds a page or nothing is free |
| `PhysMemory.AllocatableRanges` | weensyos/k-hardware.cc:304-321 | the addresses that may be allocated, as four ranges |
| `PageEdits.WalkElsewhere` | weensyos/k-vmiter.cc:58-72 | in a tree of tables, storing an entry changes no walk that does not use that entry |
| `PageEdits.LeafKeepsTree` | weensyos/k-vmiter.cc:69-71 | storing a level-0 entry keeps the tree and the set of tables |
| `PageEdits.LeafStore` | weensyos/k-vmiter.cc:69-71 | storing a level-0 entry changes the translation of exactly that page's addresses |
| `PageEdits.LinkKeepsTree` | weensyos/k-vmiter.cc:58-67 | linking a fresh table keeps the tree and adds only that table |
| `PageEdits.LinkIsInvisible` | weensyos/k-vmiter.cc:58-67 | linking a zeroed page below an absent entry changes no translation at all |
| `PageEdits.OtherSpaceUnchanged` | weensyos/k-vmiter.cc:45-73 | an address space whose tables are untouched translates every address as before |
| `VirtualMemory.WalkPrefix` | weensyos/k-vmiter.cc:19-35 | restarting in the cached table gives the same walk as restarting at the root when the address stays under that table |
| `VirtualMemory.VmIter.constructor` | weensyos/k-vmiter.hh:112-115 | a new iterator is at the position of the fresh walk |
| `VirtualMemory.VmIter.Down` | weensyos/k-vmiter.cc:5-17 | completes the plain walk from the current slot; panics iff the entry where it stops lies at or above 4 GB |
| `VirtualMemory.VmIter.RealFind` | weensyos/k-vmiter.cc:19-35 | whatever the old and new address, canonical or not, the cached level, entry and permissions are those of a fresh root walk; panics iff the new entry lies at or above 4 GB |
| `VirtualMemory.VmIter.Find` | weensyos/k-vmiter.hh:162-165 | moves to any address, keeping the cached position exact |
| `VirtualMemory.VmIter.Advance` | weensyos/k-vmiter.hh:166-171 | moves by a signed distance modulo 2^64, keeping the cached position exact |
| `VirtualMemory.VmIter.HasAll` | weensyos/k-vmiter.hh:150-152 | true iff all bits of p are in the conjunction of all entries of the walk |
| `VirtualMemory.VmIter.Pa` | weensyos/k-vmiter.hh:128-138 | the physical address of the translation, or none |
| `VirtualMemory.VmIter.Next` | weensyos/k-vmiter.cc:37-43 | moves to the first address after an absent entry, or to the next page after a present one; no page strictly in between is present |
| `VirtualMemory.VmIter.NextRange` | weensyos/k-vmiter.hh:172-174 | moves to the end of the entry; every address skipped has the same walk |
| `VirtualMemory.VmIter.PermRange` | weensyos/k-vmiter.hh:218-226 | true iff the range is empty, or it does not reach into the last entry of the address space and every address of it has all bits of p, although one address per entry is tested; a range reaching into that entry is refused because next_range wraps to address 0 |
| `VirtualMemory.RangeEnd` | weensyos/k-vmiter.hh:122-124 | last_va is 0 exactly for addresses in the last entry of the address space and otherwise at most that entry's start; from a low address it is at most `VA_LOWEND` |
| `VirtualMemory.VmIter.LowPerm` | weensyos/k-vmiter.hh:228-236 | true iff the range is ordered, lies below `VA_LOWEND` and every address in it has all bits of p |
| `VirtualMemory.VmIter.LowPermSize` | weensyos/k-vmiter.hh:238-245 | the same for a start and a size, without wrap-around of the sum |
| `VirtualMemory.VmIter.LinkTable` | weensyos/k-vmiter.cc:58-67 | one round of the growing loop: succeeds iff a page is free, uses up exactly one, goes one level down, changes no translation and writes only a free page and own tables; on failure nothing changed |
| `VirtualMemory.VmIter.Grow` | weensyos/k-vmiter.cc:58-67 | the whole loop reaches level 0, using one page per missing level, iff that many pages are free; no translation changes and P/W/U rights of the path are kept |
| `VirtualMemory.VmIter.TryMap` | weensyos/k-vmiter.cc:45-73 | fails iff a permission is asked for and fewer pages are free than levels are missing, and then changes no translation; success makes every address of the page translate as requested, if and only if it is not a perm-0 call inside a large page; no other page is affected; the tables stay an owned tree; every other address space that owns its tables and shares none with this one keeps its tables and all its translations and stays disjoint |
| `VirtualMemory.LeafTranslation` | weensyos/k-vmiter.cc:69-71 | the stored word pa\|perm means the requested translation for all addresses of the page |
| `VirtualMemory.OtherSpaceKept` | weensyos/k-vmiter.cc:45-73 | writes to one space's tables and to free pages leave a disjoint space unchanged and disjoint |
| `PageEdits.KeptTablesKeepSpace` | weensyos/k-vmiter.cc:45-73 | an address space whose table pages keep their contents keeps its tables, its tree shape and all translations |
| `VirtualMemory.TopRangeIsRefused` | weensyos/k-vmiter.hh:218-226 | a concrete page table whose last 512 GB are all present, and a range in it that perm(last_va, p) refuses |
| `VirtualMemory.VmIter.Run` | weensyos/k-vmiter.hh:31-54 | every sequence of find, +=, next, next_range and try_map keeps the cached position equal to a fresh walk, up to a failed assertion |
| `VirtualMemory.NextSkipsOnlyAbsent` | weensyos/k-vmiter.cc:37-43 | the region skipped by next holds no other present page |
| `VirtualMemory.RangeSharesEntry` | weensyos/k-vmiter.hh:122-124 | all addresses before last_va share the walk |
| `PageTablePages.EntriesSorted` | weensyos/k-vmiter.cc:83-113 | the recursive traversal is strictly sorted by end address, deeper tables first |
| `PageTablePages.ParentAfterChild` | weensyos/k-vmiter.hh:72-82 | in that order a table comes after every table below it |
| `PageTablePages.PostOrderIsComplete` | weensyos/k-vmiter.hh:72-82 | the traversal lists every table except the root exactly once |
| `PageTablePages.TrackPresent` | weensyos/k-vmiter.cc:86-93 | descending into, or stopping at, a table keeps what remains of the post-order |
| `PageTablePages.TrackAbsent` | weensyos/k-vmiter.cc:94-110 | moving on, or climbing by restarting at the root, keeps what remains of the post-order; past the last entry nothing remains |
| `PageTablePages.PtIter.constructor` | weensyos/k-vmiter.cc:76-81 | an iterator started anywhere in the 48 bits the root covers has that start's part of the post-order before it; from 0, the whole post-order |
| `PageTablePages.OnwardIsSuffix` | weensyos/k-vmiter.cc:76-81 | that part is a suffix of the post-order: exactly the tables that end beyond the start address |
| `PageTablePages.PtIter.Down` | weensyos/k-vmiter.cc:83-113 | the stackless loop terminates at the next table of the recursive post-order, for any memory contents, reading only the root and tables still to come |
| `PageTablePages.PtIter.Next` | weensyos/k-vmiter.hh:208-210 | delivers the post-order one table at a time, ending inactive; reads no table already delivered |
| `PageTablePages.PtIter.Page` | weensyos/k-vmiter.hh:211-213 | the page of the current table |
| `PageTablePages.DistinctPages` | weensyos/k-vmiter.hh:72-82 | in a tree, no page is delivered twice and the root never |
| `PageTablePages.FreeTables` | weensyos/k-vmiter.hh:74-82 | overwriting each page with arbitrary contents as soon as it is delivered does not disturb the traversal: all tables but the root are freed exactly once and no move reads a freed page |
| `MemoryUsage.MemUsage.Mark` | weensyos/k-memviewer.cc:51-55 | adds flags to one tracked page; any address is safe |
| `MemoryUsage.MemUsage.MarkTables` | weensyos/k-memviewer.cc:91-94 | marks exactly the table pages of an address space |
| `MemoryUsage.MemUsage.MarkUser` | weensyos/k-memviewer.cc:96-103 | marks exactly the physical pages that some low address maps user-accessible |
| `MemoryUsage.MemUsage.MarkByAddress` | weensyos/k-memviewer.cc:108-121 | the fallback loop marks exactly the used physical pages reached from a user-accessible low address, where an entry is left at its first unused page |
| `MemoryUsage.OwnerFlagsMean` | weensyos/k-memviewer.cc:114-115 | the fallback marks a page for the process in whose 256 KB share it lies, and below the shares for none |
| `MemoryUsage.ClaimsAreNaive` | weensyos/k-memviewer.cc:108-121 | without user-accessible large pages those are exactly the used pages that some low address maps user-accessible |
| `MemoryUsage.MemUsage.Refresh` | weensyos/k-memviewer.cc:69-127 | each page's flags are those of the naive enumeration over all address spaces, plus the viewer's own page if some process has its own page table, and the pages claimed by address if none has; so the bit of a process is set iff it uses the page, or, without separate page tables, iff the page lies in its share and is claimed |
| `MemoryUsage.FinalProcessFlag` | weensyos/k-memviewer.cc:69-127 | the bit of a process in the finished map |
| `MemoryUsage.FinalUserFlag` | weensyos/k-memviewer.cc:69-127 | the user bit in the finished map |
| `MemoryUsage.FinalKernelFlag` | weensyos/k-memviewer.cc:69-127 | the kernel bit in the finished map |
| `MemoryUsage.MarkedPidInverts` | weensyos/k-memviewer.cc:57-59 | marked_pid recovers the process from its flag |
| `MemoryUsage.MarkedPidIsLowest` | weensyos/k-memviewer.cc:57-59 | on the finished map marked_pid finds the lowest process that uses the page |
| `MemoryUsage.UserFlagMeans` | weensyos/k-memviewer.cc:84-105 | the user flag is set iff some separate live process maps the page user-accessible at a low address |
| `MemoryUsage.KernelFlagMeans` | weensyos/k-memviewer.cc:77-94 | the kernel flag is set iff the page is a table page |
| `MemoryUsage.ProcessFlagMeans` | weensyos/k-memviewer.cc:27-35 | the flag of pid is set iff pid maps the page or uses it as a table |
| `KernelBoot.SameLevel` | weensyos/k-vmiter.cc:5-17 | the walks to all addresses of physical memory stop at the same level |
| `KernelBoot.IdentityMap` | weensyos/kernel.cc:68-76 | succeeds iff at least as many pages are free as the walk to address 0 lacks tables; then every page below the memory size but the null page maps to itself with all rights, the null page is unmapped or left alone, and all other translations are unchanged |
| `KernelBoot.BootTableAt` | weensyos/k-hardware.cc:118-127 | the five boot-time tables are all the tables there are, each used once |
| `KernelBoot.BootWalk` | weensyos/k-hardware.cc:118-136 | for every 64-bit address: the boot-time tables map the gigabytes 1 to 3 to themselves for the kernel and nothing else, and have all tables for physical memory |
| `KernelBoot.InitKernelMemory` | weensyos/k-hardware.cc:118-146 | whatever memory held before, no map() call fails, and the translation of every 64-bit address is the intended one |
| `KernelBoot.Boot` | weensyos/kernel.cc:68-76 | the second pass over the kernel's page table cannot fail either and ends with the same translations |
| `KernelBoot.LargePageStays` | weensyos/k-vmiter.cc:58-72 | in the boot-time tables, try_map with perm 0 inside a device gigabyte returns 0 and unmaps nothing |
| `InitGuard.StepRefines` | weensyos/k-hardware.cc:944-968 | every step keeps the invariant and is a step of an abstract latch: 1 is returned exactly when it leaves Fresh, 0 only when it is Done, and only release makes it Done |
| `InitGuard.RunInv` | weensyos/k-hardware.cc:944-968 | the invariant holds after every interleaving |
| `InitGuard.GuardTheorem` | weensyos/k-hardware.cc:944-968 | in every interleaving at most one call returns 1, a call returns 0 only after release, and after release the guard is 2 or exactly one caller is about to restore it |
| `InitGuard.AfterRelease` | weensyos/k-hardware.cc:944-968 | after release no call returns 1, in whatever run |
| `InitGuard.FastPath` | weensyos/k-hardware.cc:944-948 | the first load returns 0 at once iff the byte is 2, and leaves the byte alone |
| `InitGuard.SpinnerReturns` | weensyos/k-hardware.cc:949-958 | after release some continuation of at most three steps lets a spinning caller return 0 |
| `InitGuard.QuietStepWorks` | weensyos/k-hardware.cc:944-968 | every step of a call in progress lowers the work left, except an exchange of 1 for 1, which changes nothing |
| `InitGuard.SomeoneWorks` | weensyos/k-hardware.cc:944-968 | while a call is in progress, one in progress does not spin |
| `InitGuard.FairRunsReturn` | weensyos/k-hardware.cc:944-968 | from every reachable state, every run without new calls that gives each thread a step in each of at least three rounds per thread ends with all calls returned, whatever the order inside the rounds |
| `InitGuard.SpinnerCanStarve` | weensyos/k-hardware.cc:949-958 | with new calls that is false: from a contended state two threads that keep calling can make a third exchange 2n times without returning, for every n |
| `InitGuard.ContendedIsReachable` | weensyos/k-hardware.cc:944-968 | three first-time callers can reach such a state |
| `ConnLocks.PlanSound` | vunmo/vunmo-server.cc:178-228 | every action locks only free mutexes, unlocks only held ones, and writes `is_connected` only under the client's mutex |
| `ConnLocks.StepKeepsInv` | vunmo/vunmo-server.cc:312-409 | a mutex is always owned by exactly the thread whose program counter says so |
| `ConnLocks.NoDeadlock` | vunmo/vunmo-server.cc:347-409 | whenever a call is in progress some call in progress can take a step |
| `ConnLocks.IdleHoldsNothing` | vunmo/vunmo-server.cc:178-228 | when all calls have returned all mutexes are free |
| `ConnLocks.WritesAreGuarded` | vunmo/vunmo-server.cc:333-345 | `is_connected` changes only in the hands of the owner of the client's mutex |
| `ConnLocks.RunsAreShort` | vunmo/vunmo-server.cc:347-409 | without new calls every run is bounded by the work left |
| `ConnLocks.ReachableIsLive` | vunmo/vunmo-server.cc:178-409 | for any number of threads no reachable state is deadlocked, and a thread outside the functions holds no mutex |
| `ConnLocks.CallsReturn` | vunmo/vunmo-server.cc:178-409 | from every such state all calls in progress can be run to their return |
| `ConnCalls.ConnectedChanges` | vunmo/vunmo-server.cc:178-409 | for every step: is_connected of a client is cleared exactly by a failed write or read on it, and set exactly by a reconnect |
| `ConnCalls.TurnsLead` | vunmo/vunmo-server.cc:178-409 | in every run other threads neither move a thread nor change a client whose mutex it holds |
| `ConnCalls.SendCall` | vunmo/vunmo-server.cc:178-228 | in every interleaving a send reports a missing client iff it is not in the map, and otherwise writes exactly once under the client's mutex, except a notification to a disconnected client; it leaves the client connected iff it was and the write did not fail |
| `ConnCalls.ReconnectCall` | vunmo/vunmo-server.cc:312-331 | in every interleaving a reconnect takes over the new descriptors iff the client is disconnected when its mutex is taken, else closes them, and leaves the client connected |
| `ConnCalls.FetchCall` | vunmo/vunmo-server.cc:347-409 | in every interleaving a fetch tries each client's mutex once, polls exactly those free and connected at that moment, then reads from exactly those of the readable ones whose mutex is free, in order |
| `HelloPairing.LatestMeans` | vunmo/vunmo-server.cc:288-299 | the specified descriptor is that of the last hello of its client and kind since the given point |
| `HelloPairing.PendingLacksOne` | vunmo/vunmo-server.cc:300-304 | what a client has pending always lacks a descriptor |
| `HelloPairing.Acceptor.Handle` | vunmo/vunmo-server.cc:272-304 | a hello completes a client iff both kinds have arrived since its previous pairing, and the connection carries the latest of each |
| `HelloPairing.Acceptor.AcceptClient` | vunmo/vunmo-server.cc:259-310 | for every stream of events returns the first completed connection, with the client's latest two descriptors since its previous pairing |
| `HelloPairing.Acceptor.IncompleteLackOne` | vunmo/vunmo-server.cc:300-304 | every incomplete connection lacks at least one descriptor |
| `Ledger.HandleWithdraw` | vunmo/vunmo-server.cc:457-472 | subtracts iff the balance suffices |
| `Ledger.HandlePay` | vunmo/vunmo-server.cc:474-501 | moves the amount iff the balance suffices, also when both accounts are the same object, and notifies the target iff it did |
| `Ledger.Server.Handle` | vunmo/vunmo-server.cc:438-518 | every handler changes the ledger as specified and nothing else; the return code tells whether the request was affordable, the response carries the new balance, and the target is notified of exactly the charges and the successful payments |
| `Ledger.HandleAll` | vunmo/vunmo-server.cc:438-518 | any sequence of requests passed to the handlers takes the account objects to the specified ledger |
| `Ledger.ApplyIsExact` | vunmo/vunmo-server.cc:448-501 | below 2^64 in total no handler wraps, and the total changes by deposits and successful withdrawals only |
| `Ledger.MoneyIsConserved` | vunmo/vunmo-server.cc:438-518 | for every sequence of requests whose deposits keep the total below 2^64, the final total is the initial one plus deposits minus successful withdrawals |
| `Ledger.PaymentMoves` | vunmo/vunmo-server.cc:474-501 | a payment moves exactly the amount if it is there, and nothing otherwise; the total is kept |
| `Ledger.ChargeAndAnswer` | vunmo/vunmo-client.cc:77-92 | a charge, any requests of anyone, and the charged client's answer to the notification, all through the handlers: exactly the amount moves from charged to charging client iff the client accepts and its balance then suffices, and otherwise nothing |
| `StrideCat.CoversBlock` | fileio/test_programs/stride_cat.c:43-48 | reading one block adds exactly its offsets, none of them read before |
| `StrideCat.NextStride` | fileio/test_programs/stride_cat.c:50-57 | the next position continues the current column range, or starts the next one when all its rows are done; the sum does not wrap |
| `StrideCat.Copy` | fileio/test_programs/stride_cat.c:40-61 | the loop terminates having read each offset exactly once, in the order of column blocks and then offsets, so the output is a permutation of the input |
| `Numbers.DigitsAreStandard` | weensyos/lib.cc:168-177 | the digit test agrees with C11 section 7.22.1.4 on a character iff it is not one just after '9' in a base above 10 |
| `Numbers.ColonIsAccepted` | weensyos/lib.cc:168-177 | for example ':' is read as 10 in base 16 |
| `Numbers.Accumulate` | weensyos/lib.cc:165-190 | the digit loop computes the saturated value of the longest digit run, although the accumulator drifts after an overflow |
| `Numbers.Strtoul` | weensyos/lib.cc:147-195 | value and end position are those of the functional parse |
| `Numbers.StrtoulSaturates` | weensyos/lib.cc:165-195 | digit strings of any length in bases 2 to 10 give min(value, 2^64-1) |
| `Numbers.PlaceValue` | weensyos/lib.cc:165-187 | the value of a numeral is the place-value sum |
| `Numbers.ParseDecimal` | weensyos/lib.cc:153-164 | with base 0 a numeral not starting with 0 is decimal |
| `Numbers.ParseOctal` | weensyos/lib.cc:153-164 | with base 0 a numeral starting with 0 is octal |
| `Numbers.ParseHex` | weensyos/lib.cc:153-164 | after 0x or 0X it is hexadecimal, with base 0 and 16 |
| `Numbers.ParseSpaces` | weensyos/lib.cc:148-150 | leading spaces change nothing but the end position, whatever follows |
| `Numbers.ParseSign` | weensyos/lib.cc:151-152 | a plus sign changes nothing but the end position, a minus sign negates |
| `Numbers.SignedSpaces` | weensyos/lib.cc:197-214 | the same for strtol and spaces |
| `Numbers.SignedSign` | weensyos/lib.cc:197-214 | strtol clamps the unsigned value, negated after a minus sign |
| `Numbers.StrtoulNegative` | weensyos/lib.cc:188-193 | in bases 2 to 36, after a minus sign the result is the standard's iff the value fits in 64 bits |
| `Numbers.NegativeOverflow` | weensyos/lib.cc:188-193 | for example minus 2^64 is read as 1 |
| `Numbers.Strtol` | weensyos/lib.cc:197-214 | the signed result is the clamped, signed parse |
| `Numbers.StrtolClamps` | weensyos/lib.cc:197-214 | in bases 2 to 36, numerals of any length with at most one minus sign are clamped to [-2^63, 2^63-1] |
| `Numbers.FillNumbuf` | weensyos/lib.cc:267-283 | writes the numeral and its terminator at the end of the 24-byte buffer, never below it, using at most 20 decimal or 16 hexadecimal digits |
| `Numbers.NumeralValue` | weensyos/lib.cc:277-282 | a printed numeral denotes the number printed |
| `Numbers.NumeralCase` | weensyos/lib.cc:267-275 | a positive base prints no lower-case and a negative base no upper-case letter |
| `Numbers.PrintThenParse` | weensyos/lib.cc:147-195 | parsing a printed 64-bit number in its base gives back the number and consumes all of it |
| `Console.Memmove` | weensyos/lib.cc:26-40 | for every overlap the destination becomes the old source, and nothing else changes |
| `Console.Clear` | weensyos/lib.cc:42-47 | zeroes exactly the given cells |
| `Console.PrintKeepsPast` | weensyos/lib.cc:564-577 | printing on the tape never changes what lies before the print position |
| `Console.PutPrints` | weensyos/lib.cc:574-576 | a character is stored with its colour at the print position, which moves on by one, and no other cell changes |
| `Console.PutNewline` | weensyos/lib.cc:568-573 | a newline fills exactly the rest of the row with spaces |
| `Console.PrintText` | weensyos/lib.cc:580-591 | a text without newlines appears on the tape character by character, and nothing else changes |
| `Console.ConsolePrinter.Scroll` | weensyos/lib.cc:542-553 | drops the first row and appends a blank one, or goes to the top without scrolling |
| `Console.ConsolePrinter.Putc` | weensyos/lib.cc:564-577 | if the screen shows the end of a tape it shows the end of the tape with the character printed; without scrolling one character or row of spaces is written; the cursor stays in [0, 2000] |
| `Console.ConsolePuts` | weensyos/lib.cc:580-591 | whatever tape the screen shows the end of, after printing any string it shows the end of that tape with the string printed without scrolling; with an explicit position the screen is printed on without scrolling |
| `Console.Session` | weensyos/lib.cc:580-591 | after any number of prints the screen is still the last 25 rows of one tape on which all of them were printed |
| `BaseAlloc.WithoutRemovesOne` | dmalloc/basealloc.cc:47-51 | swap-and-pop removes exactly one freed block |
| `BaseAlloc.TakeKeepsInv` | dmalloc/basealloc.cc:45-52 | reusing a freed block keeps active and freed blocks a partition of the non-overlapping blocks obtained |
| `BaseAlloc.AddKeepsInv` | dmalloc/basealloc.cc:56-62 | so does recording a block from malloc |
| `BaseAlloc.FreeKeepsInv` | dmalloc/basealloc.cc:74-78 | so does freeing an active block |
| `BaseAlloc.ActiveApart` | dmalloc/basealloc.cc:28-66 | no two active allocations share a byte |
| `BaseAlloc.Allocator.Reuse` | dmalloc/basealloc.cc:43-54 | for all random choices: succeeds iff one of the blocks drawn is large enough, and then the first such block, and no other, becomes active; otherwise nothing changes |
| `BaseAlloc.DrawnIsReused` | dmalloc/basealloc.cc:43-54 | a block of exactly the size asked for, or more, drawn at any try leads to a reuse |
| `BaseAlloc.Allocator.Malloc` | dmalloc/basealloc.cc:28-66 | for all random choices: reuses the first drawn block that is large enough iff reuse is tried and there is one, and otherwise returns what malloc returned; a non-null result lies in one block of sufficient capacity, apart from all active allocations; nothing else changes |
| `BaseAlloc.Allocator.Free` | dmalloc/basealloc.cc:68-81 | an active pointer becomes freed; freeing anything else changes nothing |
| `BaseAlloc.Allocator.AtExit` | dmalloc/basealloc.cc:87-92 | each freed block is released exactly once, and no active one |
| `Scheduler.Kernel.Schedule` | weensyos/kernel.cc:380-397 | picks the runnable process met first, in as many probes as its cyclic distance, at most the table size; finds none iff none is near enough |
| `Scheduler.PickIsFirst` | weensyos/kernel.cc:380-397 | in the cyclic order (pid + 1) mod n no process probed before the pick is runnable |
| `Scheduler.PickedWithinDistance` | weensyos/kernel.cc:380-397 | a process that stays runnable is picked within as many calls as its distance |
| `Scheduler.BoundedWaiting` | weensyos/kernel.cc:380-407 | whatever the other processes do, a process that stays runnable is run within n consecutive calls, n the table size |

## Left out

- VirtualMemory.VmIter.PermRange: asking for no permission bits (p = 0) on a range reaching into the last entry of the address space is excluded, because the code then loops for ever.
- VirtualMemory.VmIter.TryMap: permission bits above bit 11 and a non-empty permission at a non-canonical address, where the code would write its constant zero entry, are outside the model.
- PageTablePages.PtIter.constructor: starts at or above 2^48, where the iterator's own index arithmetic ignores the upper bits, are outside the model; no caller passes one.
- BaseAlloc.Allocator.Free: with the allocator disabled, pointers go straight to the C library; the guarantees are about the enabled allocator.
- Scheduler.Kernel.Schedule: the endless probing of `schedule` is modelled for any finite number of probes, because it spins for ever when nothing is runnable.
- Stencil code without a body: `kfree`, `syscall_fork`, `syscall_exit`, account lookup and account mutexes, the server loops, `synchronized_queue`, the shard servers, `dmalloc` bookkeeping, strvec. `kfree` appears only as "the page may now hold anything".
- Whether the caller of `handle_reconnecting_client` holds `client_conns_mtx`: that caller is not written; the model has it hold nothing. The set of clients is fixed during a run.
- Closing of descriptors (the server can close one twice), socket and file errors, message texts, `handle_unknown_request`.
- `printer::vprintf` format directives, `symbol_at` and other display code, keyboard, PCI, APIC, boot assembly, segment and gate packing.
- `distributed-store/common`: settled by a case split.
- Weak memory ordering of the guard's relaxed load.
