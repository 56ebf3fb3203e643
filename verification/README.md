# A verified model of BitVisor's memory-virtualisation core

BitVisor is a thin hypervisor. This project models the parts of it that keep the guest's view of memory right, and
proves in Dafny what they rely on but never write down:

- the shadow page table cache (`CPU_MMU_SPT_3`): which guest page tables are write-protected, which shadow pages may
  be linked from where, and that pages handed out are zero although they are cleared lazily (`Spt`, `ShadowPool`,
  `RwMap`, `Shadow1Map`, `Coherence`, `ShadowTypes`, `Lists`, `Wrappers`); and the two rings of slots of the older
  variant `CPU_MMU_SPT_2` (`ShadowRing`, `RingTables`);
- the buddy allocator for pages, alone and under any interleaving of its locked sections (`Powers`, `Buddy`,
  `PageAllocator`);
- the page table cursor and the guest page walk built on it (`PageTables`, `Pmap`, `GuestWalk`, `EntryBits`);
- the index of memory-mapped I/O handlers (`Mmio`) and the MTRR uniformity check (`Mtrr`);
- three engines beside it: the AML parser over its reference-counted stacks and paths (`Grammar`, `ParseRounds`,
  `Markers`, `Readings`, `LengthForms`, `Derivations`, `PackageEnds`, `LostReading`, `RefLists`, `DsdtParser`), the
  process table with its generations (`Processes`), and the all-CPU barrier (`Barrier`); and the repeated string
  instructions of the interpreter (`StringOps`, `StringMemory`).

Objects that the program updates in place are classes here, with `Valid()` for the invariant that every operation
keeps; a `Run` method states what holds over whole runs. Lists are sequences of slot numbers in place of pointers.

Where the code does not meet a property on all inputs, it is modelled as it is and the exact condition is proved:

- `eqlist` compares the stacks of two parser configurations but neither their paths nor the package length being read.
  The parser loses no reading iff the stacks determine the path and the lengths that will still be used
  (`Readings.ReadingsKeptExactly`). Paths do not matter for what is parsed (`Markers.ReachBare`): if the stacks
  determine the lengths, the answer is exact (`Readings.Verdict`), and a condition on the grammar alone ensures that for
  every input (`LengthForms.FormVerdict`). Whether a stack can be lost at one byte is decided exactly by
  `Readings.SafeExactly`, and `LostReading.LostVerdict` is an input that is refused although it is a viable prefix;
- the MTRR check is right about a mask iff a mask that looks inside the block looks at every bit of the block number
  (`Mtrr.ReliesOnFit`), which contiguous masks reaching the address width do. For those it is right about blocks that
  start at the given address iff they have at most 4 GiB (`Mtrr.AlignedExactly`; the callers ask about 2 MiB), and
  about blocks around any address iff they have at most 8 MiB (`Mtrr.AnywhereExactly`);
- the parser reads no byte beyond the end of an open package if the packages inside it lie within it
  (`Derivations.StaysInside`); `PackageEnds.InnerOverruns` is an input on which one does not, and is read on;
- `pmap_autoalloc` fails its assertion exactly if a large page is in the way (`Pmap.Pmap.AutoAlloc`);
- an MMIO access that reaches the last byte of the address space is not served (`Mmio.Mmio.AccessMemory`), and a
  handle of length zero would claim every access (`Mmio.EmptyHandle`).

`dafny verify dfyconfig.toml` checks the whole project.

## Model

| member | source | states |
|---|---|---|
| Spt.Spt.WriteProtection | bitvisor/core/cpu_mmu_spt.c:1861-1907 | in every state between two operations, a guest frame with a level 1 or 2 shadow that is in use, not large and not flagged modified is mapped writable by no shadow PTE |
| Spt.Spt.NoDanglingLinks | bitvisor/core/cpu_mmu_spt.c:1744-1770 | every present PDE of every directory page, and every live top-level entry, links to a slot that is not free; so a walk of the shadow never reaches a free page |
| Spt.Spt.ShadowAgrees | bitvisor/core/cpu_mmu_spt.c:2092-2223 | where the directory reached for an address and the table below it are not flagged modified, a present shadow PTE maps exactly the host frame that the guest tables, as they are now, translate the address to |
| Spt.Spt.FreePagesAreZero | bitvisor/core/cpu_mmu_spt.c:1680-1725 | the page of every free slot of either level is entirely zero, although pages are cleared by recorded offsets only |
| Spt.Spt.ListsAgree | bitvisor/core/cpu_mmu_spt.c:1557-1595 | each slot of either level is on exactly one of free, modified and normal, is hashed iff not free and then in the bucket of its key, is flagged iff on modified, and no two slots in use share a key |
| Spt.Spt.constructor | bitvisor/core/cpu_mmu_spt.c:2492-2536 | start-up on pages of arbitrary content gives a state with every invariant |
| Spt.Spt.Run | bitvisor/core/cpu_mmu_spt.c:2092-2223 | every sequence of faults, guest stores, CR3 loads, INVLPG, TLB flushes, MMIO registrations and full flushes keeps every invariant |
| Spt.Spt.Step | bitvisor/core/cpu_mmu_spt.c:2092-2223 | each single step does; a fault ends with a PTE as for MapPage, a store of the guest takes place, INVLPG leaves no stale translation, a CR3 load none or an empty space, and a flush no shadow in use |
| Spt.Spt.MapPage | bitvisor/core/cpu_mmu_spt.c:2092-2223 | refused exactly for a write to a frame of the VMM. Otherwise the PTE that the walk finds maps the frame of the fault, or the blank page; with CR0.WP set the PDE and the PTE have the rights gathered down to their levels and with it clear those of the table in the source, row by row, except that write permission is withheld exactly if the frame is of the VMM or still has a shadow that is not flagged modified, which it never has after a write; the key of the directory tells the rights of the level above and CR0.WP, so that walks with others never share it. No access gets through that the guest tables do not admit, and those like the one that faulted do. No panic of a second failure is reached, and all invariants hold again |
| Spt.RelaxTable | bitvisor/core/cpu_mmu_spt.c:2140-2159 | the override for CR0.WP clear does what the rows of the table say for rw, us and nx of one level, and nothing with CR0.WP set |
| Spt.OverrideSound | bitvisor/core/cpu_mmu_spt.c:2140-2159 | with the rights so changed at both levels, a processor with CR0.WP set lets no access through that the guest, with its CR0.WP, does not admit, and lets the access that faulted through |
| Spt.KeyRights | bitvisor/core/cpu_mmu_spt.c:2160-2170 | the keys differ when CR0.WP or, for directories, the rights gathered down to level 2 do |
| Spt.Spt.WalkIsPaging | bitvisor/core/cpu_mmu_spt.c:2174-2200 | the cells that map_page works on are those that the processor finds for the address, digit by digit |
| Spt.Spt.VmmHidden | bitvisor/core/gmm_pass.c:64-80 | in every state between two operations a shadow PTE that leads into the memory of the VMM maps the blank page, and is not writable |
| Spt.Spt.AnswerFault | bitvisor/core/cpu_mmu_spt.c:2198-2223 | the last level: refused exactly for a write to VMM memory, and otherwise answered, with the invariants; a PTE that is stored is accessed, and dirty iff the access writes |
| Spt.Spt.PrepareTable | bitvisor/core/cpu_mmu_spt.c:2174-2197 | after setpdpe and setpde the walk reaches, over a PDE with the wanted rights, a cell of a table with the wanted key, whose entry has been recorded for clearing |
| Spt.Spt.RetryDirectory | bitvisor/core/cpu_mmu_spt.c:2180-2185 | after setpdpe has failed once, emptying the top tables makes the second attempt succeed |
| Spt.Spt.InstallPage | bitvisor/core/cpu_mmu_spt.c:2205-2221 | the PTE becomes the wanted one, unless it differs from it in A and D only and then stays; it loses write permission exactly if a normal shadow of the frame remains, which none does after a write |
| Spt.Spt.UpdateShadow | bitvisor/core/cpu_mmu_spt.c:1457-1538 | for a write every shadow of the frame becomes modified and the PTE stays; otherwise the PTE loses write permission exactly if a normal shadow of the frame exists; the write-protection invariant holds again |
| Spt.Spt.ScanBoth | bitvisor/core/cpu_mmu_spt.c:1468-1521 | without need of write permission the scan finds exactly whether a normal shadow of the frame exists, in either hash; with it none is left |
| Spt.Spt.TakeBack | bitvisor/core/cpu_mmu_spt.c:1522-1537 | the PTE loses write permission, the entry of the reverse map that was just made for it is free again, and every other writable PTE still has one |
| Spt.Spt.WriteProtect | bitvisor/core/cpu_mmu_spt.c:1861-1907 | afterwards no PTE maps the frame writable, and write permission was taken only from PTEs that map it; the new shadow of the frame may then count as normal |
| Spt.Spt.Protect1 | bitvisor/core/cpu_mmu_spt.c:1995-2006 | a new table shadow of the page that the faulting write is to is flagged modified, without other effect; any other has its frame write-protected |
| Spt.Spt.Protect2 | bitvisor/core/cpu_mmu_spt.c:2047-2058 | the same for a new directory shadow |
| Spt.Spt.SetPde | bitvisor/core/cpu_mmu_spt.c:1951-2011 | the PDE always ends up linking to a table in use with the wanted key and rights |
| Spt.Spt.MakePde | bitvisor/core/cpu_mmu_spt.c:1990-2007 | the case of a new table shadow |
| Spt.Spt.LinkPde | bitvisor/core/cpu_mmu_spt.c:1985-1994 | the store to a PDE keeps every link registered |
| Spt.Spt.IsShadow1PdeOk | bitvisor/core/cpu_mmu_spt.c:1597-1620 | true exactly for a link to the slot that the hash gives for the key, if that is normal or modified and not cleared since |
| Spt.Spt.IsShadow2PdpeOk | bitvisor/core/cpu_mmu_spt.c:1622-1645 | the same for directories |
| Spt.Spt.FindShadow1 | bitvisor/core/cpu_mmu_spt.c:1647-1662 | a table found again becomes the youngest normal one and its entry is recorded; all invariants stay |
| Spt.Spt.FindShadow2 | bitvisor/core/cpu_mmu_spt.c:1664-1678 | the same for directories |
| Spt.Spt.SetPdpe | bitvisor/core/cpu_mmu_spt.c:2013-2063 | links to a directory in use, or fails only when nothing was free, and then leaves a free directory |
| Spt.Spt.ReusePde | bitvisor/core/cpu_mmu_spt.c:1963-1989 | where the PDE links to the modified shadow of the key, and that has entries recorded, no new table is asked for; nor where the hash has a normal shadow of the key |
| Spt.Spt.ReusePdpe | bitvisor/core/cpu_mmu_spt.c:2019-2042 | the same for directories |
| Spt.Spt.MapSub | bitvisor/core/cpu_mmu_spt.c:2065-2090 | the top tables reach the gigabyte of the address, always so after they were emptied |
| Spt.Spt.NewShadow1 | bitvisor/core/cpu_mmu_spt.c:1772-1815 | always finds a slot, by reuse, from the free list or by recycling, and no slot in use is given twice |
| Spt.Spt.NewShadow2 | bitvisor/core/cpu_mmu_spt.c:1817-1859 | fails only if no directory was free, and then one is: the modified ones, or else the oldest normal one |
| Spt.Spt.Recycle1 | bitvisor/core/cpu_mmu_spt.c:1786-1802 | when no table slot is free, one becomes free: the modified ones, or else the oldest normal one |
| Spt.Spt.FreeModified1 | bitvisor/core/cpu_mmu_spt.c:1744-1770 | modified tables are cleared and freed, after which no directory links to them; normal ones stay |
| Spt.Spt.FreeModified2 | bitvisor/core/cpu_mmu_spt.c:1727-1742 | modified directories are cleared and freed; normal ones stay |
| Spt.Spt.ClearModified | bitvisor/core/cpu_mmu_spt.c:2332-2368 | INVLPG: all modified pages are empty afterwards, and whatever the shadow still maps agrees with the guest tables, so that no stale translation is left |
| Spt.Spt.FlushedAgrees | bitvisor/core/cpu_mmu_spt.c:2332-2368 | with the modified pages empty, every present shadow PTE that a walk reaches maps the host frame that the guest tables, as they are now, translate the address to |
| Spt.Spt.LoadCr3 | bitvisor/core/cpu_mmu_spt.c:2370-2424 | with unchanged registers only modified pages are emptied, and no stale translation is left; otherwise nothing is mapped and nothing is modified |
| Spt.Spt.SwitchSpace | bitvisor/core/cpu_mmu_spt.c:2399-2423 | the case of changed registers |
| Spt.Spt.FlushRwMap | bitvisor/core/cpu_mmu_spt.c:2450-2454 | between operations there is nothing left to revoke, and the flag returned says so |
| Spt.Spt.ClearAll | bitvisor/core/cpu_mmu_spt.c:2426-2448 | every shadow of both levels is free |
| Spt.Spt.Unmap | bitvisor/core/cpu_mmu_spt.c:2225-2261 | exactly the PTEs that map a frame of the range are zeroed |
| Spt.Spt.GuestStore | bitvisor/core/cpu_mmu_spt.c:1861-1907 | a store through a writable PTE changes guest tables only in frames whose shadows are all flagged modified, so that every invariant holds for the new guest tables |
| Spt.KeysAgree | bitvisor/core/cpu_mmu_spt.c:2108-2139 | the keys computed for a fault are those the guest tables ask for, for 32-bit and 64-bit guests and for large pages |
| Spt.GuestKeeps | bitvisor/core/cpu_mmu_spt.c:1861-1907 | a change of the guest tables in a frame without a normal shadow keeps all shadows in agreement |
| Spt.ProtectedJoin | bitvisor/core/cpu_mmu_spt.c:1457-1538 | what holds of all PTEs but one holds of all once nothing normal shadows the frame mapped there |
| ShadowPool.Pool.constructor | bitvisor/core/cpu_mmu_spt.c:2492-2536 | all slots free and hashed nowhere, every page zero |
| ShadowPool.Pool.UpdateClearinfo | bitvisor/core/cpu_mmu_spt.c:1540-1555 | the entry is recorded for clearing, and so is every entry recorded before |
| ShadowPool.NoteWrite | bitvisor/core/cpu_mmu_spt.c:1540-1555 | on the book-keeping alone: clear_n, clear_off and clear_area cover the new entry and all old ones, also when the short list overflows |
| ShadowPool.Pool.ClearShadow | bitvisor/core/cpu_mmu_spt.c:1680-1725 | if every non-zero entry is recorded the whole 512-entry page is zero afterwards, and nothing is recorded any more |
| ShadowPool.ClearList | bitvisor/core/cpu_mmu_spt.c:1690-1697 | clearing by the short list of offsets zeroes the whole page |
| ShadowPool.ClearRuns | bitvisor/core/cpu_mmu_spt.c:1699-1719 | clearing by runs of the area bits terminates and zeroes the whole page |
| ShadowPool.NextRun | bitvisor/core/cpu_mmu_spt.c:1704-1719 | the next run of set bits: what is skipped is clear, what is taken is set, and it is not empty |
| ShadowPool.Pool.FindFromHash | bitvisor/core/cpu_mmu_spt.c:1557-1575 | finds a normal slot or a modified slot of the key, never both, and nothing only if no slot in use has the key |
| ShadowPool.Pool.ScanFrame | bitvisor/core/cpu_mmu_spt.c:1476-1489 | true iff no normal shadow of the frame remains; without needrw nothing changes |
| ShadowPool.Pool.Refresh | bitvisor/core/cpu_mmu_spt.c:1647-1662 | the slot becomes the youngest normal one |
| ShadowPool.Pool.SetModified | bitvisor/core/cpu_mmu_spt.c:1909-1917 | the slot goes to the end of the modified list with its flag, and the pool stays consistent |
| ShadowPool.Pool.Retire | bitvisor/core/cpu_mmu_spt.c:1752-1765 | a cleared modified slot leaves the hash and heads the free list |
| ShadowPool.Pool.Reuse | bitvisor/core/cpu_mmu_spt.c:1779-1785 | a modified slot of the key becomes normal with a zero page |
| ShadowPool.Pool.Take | bitvisor/core/cpu_mmu_spt.c:1786-1809 | the first free slot gets the key and is hashed; distinctness of keys is kept |
| ShadowPool.Pool.Put | bitvisor/core/cpu_mmu_spt.c:2205-2221 | a store to an entry keeps the page covered if the entry was recorded, or if it does not make a zero entry non-zero |
| ShadowPool.Pool.ClearModified | bitvisor/core/cpu_mmu_spt.c:1766-1769 | modified pages are zero afterwards and stay hashed; others are untouched |
| ShadowPool.HashTake | bitvisor/core/cpu_mmu_spt.c:1803-1805 | the hash after a free slot was taken is again exact |
| RwMap.RwMap.UpdateRwmap | bitvisor/core/cpu_mmu_spt.c:1408-1455 | every writable PTE, the new one included, has a matching entry in the bucket of its frame, despite eviction and stale entries; PTEs only lose permissions, and not the one being entered; the flag says whether the PTE of a failed entry still mapped its frame |
| RwMap.RwMap.Install | bitvisor/core/cpu_mmu_spt.c:1428-1452 | the same for the part after the fail list is empty |
| RwMap.RwMap.Evict | bitvisor/core/cpu_mmu_spt.c:1438-1445 | the oldest entry is revoked and forgotten, and it is not the one being entered |
| RwMap.RwMap.FlushFail | bitvisor/core/cpu_mmu_spt.c:1418-1427 | the fail list is emptied and coverage kept; the flag is true iff the PTE of one of its entries still mapped the frame of the entry, and otherwise no PTE changes |
| RwMap.RwMap.FindCell | bitvisor/core/cpu_mmu_spt.c:1429-1436 | finds the entry of the cell in the bucket, or there is none |
| RwMap.RwMap.MakeReadOnly | bitvisor/core/cpu_mmu_spt.c:1861-1907 | makerdonly: no PTE maps the frame writable, and only PTEs mapping it were changed |
| RwMap.RwMap.Forget | bitvisor/core/cpu_mmu_spt.c:1522-1535 | the entry just made, which heads its bucket, goes to the head of the free list; coverage but for that PTE is kept |
| RwMap.NoRwFromCovers | bitvisor/core/cpu_mmu_spt.c:1861-1907 | if the bucket of a frame has no entry for it, no PTE maps it writable |
| RwMap.CoversUnlinked | bitvisor/core/cpu_mmu_spt.c:1408-1455 | an entry whose PTE is not writable, or has been remapped, can be forgotten |
| RwMap.CoversAssigned | bitvisor/core/cpu_mmu_spt.c:1446-1451 | a filled entry covers the PTE left out so far |
| Shadow1Map.Shadow1Map.Add | bitvisor/core/cpu_mmu_spt.c:1929-1949 | the PDE is registered with the slot; the evicted registration, if any, had its PDE zeroed, so every link stays registered |
| Shadow1Map.Shadow1Map.DropAll | bitvisor/core/cpu_mmu_spt.c:1754-1761 | no directory links to the slot any more, and all other PDEs are unchanged |
| Shadow1Map.Shadow1Map.Drop | bitvisor/core/cpu_mmu_spt.c:1754-1761 | one registration goes, and with it the link it stood for and no other |
| Shadow1Map.LinksDropped | bitvisor/core/cpu_mmu_spt.c:1754-1761 | removing the registration of a PDE that no longer links to the slot keeps every link registered |
| Lists.Del | bitvisor/include/core/list.h:192-210 | LIST3_DEL removes one node, keeps the others in order and keeps them distinct |
| ShadowRing.SlotRing.constructor | bitvisor/core/cpu_mmu_spt.c:1076-1088 | all slots cleared and free |
| ShadowRing.SlotRing.Find | bitvisor/core/cpu_mmu_spt.c:526-560 | finds a normal slot of the key iff there is one; the modified, the normal and the free pages stay the same sets, and the page found is the youngest normal one |
| ShadowRing.SlotRing.Search | bitvisor/core/cpu_mmu_spt.c:526-541 | the search around the ring |
| ShadowRing.SlotRing.Refresh | bitvisor/core/cpu_mmu_spt.c:542-560 | the three swaps, in ring order |
| ShadowRing.RefreshedRegions | bitvisor/core/cpu_mmu_spt.c:542-560 | the swaps permute the modified, the normal and the free slots each among themselves |
| ShadowRing.SlotRing.NewShadow | bitvisor/core/cpu_mmu_spt.c:696-742 | hands out a zero page as the youngest normal one exactly if a modified slot has the key or more than one slot is free; or else frees all modified slots and the oldest normal one, so that the fatal error cannot happen |
| ShadowRing.SlotRing.NewShadow1 | bitvisor/core/cpu_mmu_spt.c:647-694 | the same for page tables, and when it makes room all page directories in use become modified and clear |
| ShadowRing.SlotRing.TryNew | bitvisor/core/cpu_mmu_spt.c:647-694 | the part that both share: a page is handed out exactly if a modified slot has the key or more than one slot is free, and it is zero and in use for the key |
| ShadowRing.SlotRing.Renew | bitvisor/core/cpu_mmu_spt.c:704-718 | a modified slot of the key is cleared and becomes normal; the free pages stay the same set |
| ShadowRing.RenewedRegions | bitvisor/core/cpu_mmu_spt.c:704-718 | its swaps move one slot from modified to normal and permute the rest within their regions |
| ShadowRing.SlotRing.TakeFree | bitvisor/core/cpu_mmu_spt.c:721-741 | the first free slot, whose page is zero, becomes the youngest normal one |
| ShadowRing.SlotRing.MakeRoom | bitvisor/core/cpu_mmu_spt.c:723-733 | afterwards more than one slot is free, so the test for the fatal error is false |
| ShadowRing.SlotRing.CleanModified | bitvisor/core/cpu_mmu_spt.c:607-622 | modified pages are zero; with freeflag they join the free ones, and no other page changes |
| ShadowRing.SlotRing.CleanModified1 | bitvisor/core/cpu_mmu_spt.c:624-645 | the same, and the directories that may link there all become modified and are cleared |
| ShadowRing.SlotRing.ClearModified | bitvisor/core/cpu_mmu_spt.c:607-622 | the loop clears every modified page and no other |
| ShadowRing.SlotRing.ClearSlot | bitvisor/core/cpu_mmu_spt.c:598-605 | the page is zero afterwards whatever the flag said |
| ShadowRing.SlotRing.MarkModified | bitvisor/core/cpu_mmu_spt.c:794-804 | one normal slot becomes the youngest modified one; the free slots are untouched |
| ShadowRing.SlotRing.UpdateShadow | bitvisor/core/cpu_mmu_spt.c:431-484 | on one ring: with needrw no normal slot has a key of the frame afterwards, and no slot leaves the ring; without, the answer is whether one has |
| ShadowRing.DemotedRegions | bitvisor/core/cpu_mmu_spt.c:794-804 | the swap behind it moves one slot from normal to modified and leaves the free slots |
| ShadowRing.SlotRing.StillUsed | bitvisor/core/cpu_mmu_spt.c:486-504 | true iff a modified or normal slot has the key and the page; the page may then get entries, and otherwise nothing changes |
| ShadowRing.SlotRing.WriteEntry | bitvisor/core/cpu_mmu_spt.c:1024-1032 | an entry written to a page that is in use for its key and not flagged cleared leaves every free page zero |
| RingTables.Tables.constructor | bitvisor/core/cpu_mmu_spt.c:1201-1225 | start-up on pages of any content: everything is clear and nothing is linked |
| RingTables.Tables.Run | bitvisor/core/cpu_mmu_spt.c:933-1155 | every sequence of faults, INVLPG, CR3 loads and full flushes keeps the books of both rings, the pages of free slots zero, no page directory linking to a free table and no top-level entry to a free directory |
| RingTables.Tables.Step | bitvisor/core/cpu_mmu_spt.c:933-1155 | each single step keeps all of this, and a fault ends as for MapPage |
| RingTables.Tables.MapPage | bitvisor/core/cpu_mmu_spt.c:933-1038 | a fault ends with a walk over a directory and a table in use for the wanted keys, neither flagged cleared, to the stored PTE, which has lost write permission exactly if a normal slot still has a key of its frame, and has not after a write; none of the panics for a second failure of setpdpe or setpde is reached; the link to the table of a large page is marked as such |
| RingTables.Tables.PrepareTable | bitvisor/core/cpu_mmu_spt.c:974-1018 | the part before the last level: where the first attempt failed, the room that it made and the cleared top-level tables make the second one succeed |
| RingTables.Tables.StorePte | bitvisor/core/cpu_mmu_spt.c:1019-1037 | the last level: both stores go to a page in use that is not flagged cleared |
| RingTables.Tables.SetPde | bitvisor/core/cpu_mmu_spt.c:818-863 | the entry of the directory links to a table in use for the key; or nothing was free, and then there is room, all directories are clear, and the key of the directory is that of a modified slot |
| RingTables.Tables.SetPdpe | bitvisor/core/cpu_mmu_spt.c:865-904 | the top-level entry links to a directory in use for the key; or nothing was free, and then there is room |
| RingTables.Tables.NewTable | bitvisor/core/cpu_mmu_spt.c:844-859 | a new table is in use for its key even if it is marked modified at once |
| RingTables.Tables.UpdateShadow | bitvisor/core/cpu_mmu_spt.c:431-484 | afterwards a normal slot of either ring has a key of the frame exactly if the answer says so, and never with needrw |
| RingTables.Tables.InvalidatePage | bitvisor/core/cpu_mmu_spt.c:314-340 | after INVLPG a walk for the address finds no PTE: of a marked link both halves of 4 MiB go, of any other the one PTE, and nothing else changes |
| RingTables.Tables.UpdateCr3 | bitvisor/core/cpu_mmu_spt.c:1104-1143 | nothing is linked from the top any more, no directory is modified, and all modified tables are clear; if CR0.WP has changed nothing is normal |
| RingTables.Tables.ClearShadows | bitvisor/core/cpu_mmu_spt.c:1076-1101 | every slot of both rings is free |
| RingTables.NoLinks | bitvisor/core/cpu_mmu_spt.c:624-645 | when all directories are clear, no page of a directory holds a link |
| RingTables.UsedNotFree | bitvisor/core/cpu_mmu_spt.c:486-504 | a page in use for a key is the page of no free slot |
| PageAllocator.Mm.constructor | bitvisor/core/mm.c:828-849 | after start-up the blocks tile all pages, exactly the usable pages are free, and the state is canonical |
| PageAllocator.Mm.PopLocked | bitvisor/core/mm.c:548-566 | the first critical section: a free block of the level becomes owned, or its list is empty; the tiling stays |
| PageAllocator.Mm.SplitLocked | bitvisor/core/mm.c:551-559 | the second: an owned block of the next level becomes two free buddies of the level, although the allocsize of the upper half is not written |
| Buddy.SplitBlock | bitvisor/core/mm.c:553-559 | the page that starts the upper half already has the right allocsize, because a page that heads no block stores its number of trailing zero bits |
| PageAllocator.Mm.FreePage | bitvisor/core/mm.c:574-604 | exactly the pages of the block become free, other owned blocks stay, the tiling and the canonical form stay, and the assertions hold |
| PageAllocator.Mm.MergeStep | bitvisor/core/mm.c:587-600 | one round: two free buddies become one free block of the next level |
| Buddy.MergeBlocks | bitvisor/core/mm.c:587-600 | two free buddies tile one aligned block |
| PageAllocator.Mm.Alloc | bitvisor/core/mm.c:538-572 | without interference: exactly the pages of one aligned free block of the size asked for become owned, and it fails past the top level only when every list from that level up is empty; the state stays canonical |
| PageAllocator.Mm.SplitAndPop | bitvisor/core/mm.c:549-566 | the upper half of each split stays free |
| PageAllocator.Mm.AllocThenFree | bitvisor/core/mm.c:538-604 | an allocation followed by its release leaves the free blocks of every level as they were, and the allocation succeeds iff an aligned run of free pages of that size exists |
| PageAllocator.Mm.NumAvailable | bitvisor/core/mm.c:607-623 | the number computed from the lists is the number of free pages |
| PageAllocator.NoRun | bitvisor/core/mm.c:538-572 | in canonical form an aligned free run of 2^n pages exists iff some list from level n up is not empty |
| Buddy.FreeBlocksDetermined | bitvisor/core/mm.c:574-604 | in canonical form the free blocks depend only on the set of free pages |
| Buddy.RunInOneBlock | bitvisor/core/mm.c:574-604 | in canonical form an aligned run of free pages lies within one free block |
| Buddy.JoinHalves | bitvisor/core/mm.c:587-600 | two adjacent aligned free runs of one size lie in one block |
| Buddy.Merge | bitvisor/core/mm.c:576-600 | the address computed by flipping one bit is the buddy, and the two form an aligned block |
| Buddy.Nested | bitvisor/core/mm.c:574-604 | aligned blocks are nested or disjoint |
| Buddy.Retype | bitvisor/core/mm.c:549-586 | a block changes hands as a whole and the tiling stays |
| PageAllocator.Machine.Run | bitvisor/core/mm.c:538-604 | CPUs that allocate and free in any interleaving of the locked sections keep the tiling, one owner per owned block, the level that each block handed out was asked for with, and the reserved pages |
| PageAllocator.Machine.Step | bitvisor/core/mm.c:538-604 | each locked section does, and a CPU is handed at most one new block, of the level it asked for |
| PageAllocator.Machine.OwnersDisjoint | bitvisor/core/mm.c:538-604 | no page belongs to two owned blocks, or to an owned and a free one |
| Readings.Verdict | bitvisor/core/acpi_dsdt.c:1030-1072 | when no two reachable configurations with equal stacks differ in a package length that will still be used, parsemain, with its path lists and markers, stops with the underflow error iff some reading of some prefix in the plain grammar misses a package end, and otherwise accepts iff the whole input is a viable prefix of it |
| Readings.StacksKept | bitvisor/core/acpi_dsdt.c:795-823 | under the same condition the stacks kept at each position are, markers aside, exactly those reachable by leftmost derivations of the plain grammar that read the input so far within the package ends |
| Derivations.RunVerdict | bitvisor/core/acpi_dsdt.c:1030-1072 | the same answer in terms of derivations that are written down rule by rule, without the data of the parser: the error iff some derivation leaves a package where none is open, and otherwise acceptance iff some derivation reads the whole input |
| Derivations.RunSound | bitvisor/core/acpi_dsdt.c:1030-1072 | without any condition, what is accepted is derivable, and the error means that some derivation leaves a package where none is open |
| Derivations.ReachIsRuns | bitvisor/core/acpi_dsdt.c:2422-2519 | the configurations that the steps of the parser reach are those that derivations by the rules come to |
| Derivations.StaysInside | bitvisor/core/acpi_dsdt.c:2494-2497 | as long as a package is open no byte at or beyond its end is read, if it has not ended when it is opened and every package opened in it lies within the one around it |
| Derivations.ReachInside | bitvisor/core/acpi_dsdt.c:2494-2497 | so every configuration reached at a position has come there by a derivation in which no open package of that kind has been passed |
| Derivations.ClosedAtEnd | bitvisor/core/acpi_dsdt.c:2463-2469 | PkgEnd leaves a package exactly where it ends |
| Derivations.OpensEncoded | bitvisor/core/acpi_dsdt.c:2422-2458 | with the four alternatives of AML_PkgLength a package ends where the one to four bytes of its length say, counted from the first of them |
| PackageEnds.EndIsRespected | bitvisor/core/acpi_dsdt.c:2494-2497 | a package of three bytes is read to its end, and a third byte after a package of two is refused |
| PackageEnds.InnerOverruns | bitvisor/core/acpi_dsdt.c:2494-2497 | the condition is needed: a package opened inside another may reach beyond it, and then the outer one is overrun |
| Readings.ReadingsKeptExactly | bitvisor/core/acpi_dsdt.c:795-823 | on the program's own stacks, markers included: no reading is lost, with its path and the length it will use, iff the stacks determine the path and the length in use |
| Readings.SafeExactly | bitvisor/core/acpi_dsdt.c:795-823 | whatever eqlist drops from a set of configurations, comparing stacks with their markers, all stacks are reached with the next byte, iff for every stack after it some pair of stacks before it leads there whichever configuration is kept |
| Readings.SafeStacksKept | bitvisor/core/acpi_dsdt.c:795-823 | while every position so far was safe in that sense, no reachable stack has been lost |
| Readings.SafeVerdict | bitvisor/core/acpi_dsdt.c:1030-1072 | and then an input is refused only if it is no viable prefix |
| Readings.AnswerSound | bitvisor/core/acpi_dsdt.c:1030-1072 | whatever the grammar and the input, what is accepted is a viable prefix of the plain grammar, and the underflow error means that a reading of some prefix misses a package end |
| Readings.KeptIsReachable | bitvisor/core/acpi_dsdt.c:1030-2520 | whatever is kept at a position is reachable by a leftmost derivation that reads the input so far within its package ends, and no two kept have equal stacks, markers included |
| Readings.ReadsSame | bitvisor/core/acpi_dsdt.c:2436-2470 | what one configuration becomes, another with the same stacks, the same path and the same length in use becomes too, whatever lengths are no longer used |
| Readings.BareReadsSame | bitvisor/core/acpi_dsdt.c:701-743 | and so does one with another path and other markers, but for paths and markers |
| Readings.AllCovered | bitvisor/core/acpi_dsdt.c:795-823 | when the stacks determine the lengths in use, every reachable configuration has one kept that differs from it in path and markers only |
| Readings.UnsetLengthUnused | bitvisor/core/acpi_dsdt.c:701-743 | the package length that addbufsub leaves unset in a new configuration is never used, if every length is read and used within one alternative |
| LostReading.LostVerdict | bitvisor/core/acpi_dsdt.c:795-823 | a grammar in which lengths are read before they are used, and four bytes: two readings with equal stacks and different lengths in use, of which one is dropped, then a reachable stack that is lost, then a viable prefix that is refused |
| LengthForms.FormVerdict | bitvisor/core/acpi_dsdt.c:1030-1072 | in every grammar that pushes a length at once after reading it, and in which what is left of an alternative tells how the length was read, the answer is exact for every input: the error iff a reading misses a package end, and otherwise acceptance iff the input is a viable prefix |
| LengthForms.FormsDetermine | bitvisor/core/acpi_dsdt.c:2422-2462 | in such a grammar the stacks determine the length in use, whatever the input |
| LengthForms.ReachRead | bitvisor/core/acpi_dsdt.c:2441-2454 | in a grammar that pushes lengths at once, a length in use is always what the bytes just read give, from the first byte of the length on |
| Markers.ReachBare | bitvisor/core/acpi_dsdt.c:701-743 | with the path lists and their markers the parser reaches exactly the stacks that it would reach without them, and every marker on the stack has its element of the path |
| Markers.NoPathUnderflow | bitvisor/core/acpi_dsdt.c:2482-2492 | the error of an empty path cannot happen |
| Markers.OutsBare | bitvisor/core/acpi_dsdt.c:701-743 | whatever is read with markers is read without |
| Markers.OutsMarked | bitvisor/core/acpi_dsdt.c:701-743 | whatever is read without markers is read with them |
| Markers.MissingBare | bitvisor/core/acpi_dsdt.c:2459-2470 | a package end is missing with markers iff it is without |
| ParseRounds.PositionKeeps | bitvisor/core/acpi_dsdt.c:2422-2519 | the rounds for one byte keep exactly one configuration for each pair of stacks, markers included, that the kept configurations become, or stop with the error iff one of them misses a package end or the path |
| ParseRounds.RoundsSafe | bitvisor/core/acpi_dsdt.c:2455-2470 | without the error nothing that follows from the configurations misses a package end or the path |
| ParseRounds.RoundsEnd | bitvisor/core/acpi_dsdt.c:1041-2519 | every round leaves less to do, so the rounds for one byte end |
| ParseRounds.SettleSound | bitvisor/core/acpi_dsdt.c:2455-2470 | the elements that only work on the package ends and the path, done at once, change nothing of what a configuration can read |
| DsdtParser.ParseData.constructor | bitvisor/core/acpi_dsdt.c:2574-2590 | one configuration with the start symbol and an empty path is allocated |
| DsdtParser.ParseData.Parse | bitvisor/core/acpi_dsdt.c:2574-2618 | parser(): what is accepted is derivable and the error means that some derivation leaves a package where none is open, and when the stacks determine the lengths in use it is refused only if it is not derivable and the error comes iff there is such a derivation; unless the program stops with the error no configuration, no element, no package end and no path element is left allocated |
| DsdtParser.ParseData.ParseMain | bitvisor/core/acpi_dsdt.c:1030-1059 | on three kinds of reference-counted lists with shared nodes: the result is the first configuration kept after the last byte, and it alone is left allocated; or nothing is |
| DsdtParser.ParseData.Result | bitvisor/core/acpi_dsdt.c:1050-1058 | at the end every other configuration is freed |
| DsdtParser.ParseData.Position | bitvisor/core/acpi_dsdt.c:1041-2519 | the rounds for one byte compute what they keep, in the order of the list |
| DsdtParser.ParseData.Process | bitvisor/core/acpi_dsdt.c:1060-2519 | one configuration is taken through loop2: its alternatives are waiting, or it is kept, or freed; whatever is allocated is waiting or kept |
| DsdtParser.ParseData.Turn | bitvisor/core/acpi_dsdt.c:1060-2519 | one turn: an element that works on the package ends or the path lets the same configuration go on, ends it, or is the error; otherwise the configuration is expanded, kept or freed |
| DsdtParser.ParseData.PackageEnd | bitvisor/core/acpi_dsdt.c:2455-2470 | an element that pushes, drops or checks a package end, or drops the head of the path, does so on the list of the configuration, is refused, or is the error |
| DsdtParser.ParseData.Expand | bitvisor/core/acpi_dsdt.c:1073-2440 | the alternatives of a nonterminal are waiting, the last one first, over a path that leads to it, and the configuration itself is freed |
| DsdtParser.ParseData.AddBuf | bitvisor/core/acpi_dsdt.c:701-743 | a new configuration shares the lists of the current one below its alternative, and heads the list; unless the path leads to the nonterminal already, the path gets it and the stack a marker |
| DsdtParser.ParseData.EnterPath | bitvisor/core/acpi_dsdt.c:707-724 | the part for the path and its marker |
| DsdtParser.ParseData.LeavePath | bitvisor/core/acpi_dsdt.c:2482-2492 | a marker drops the head of the path, or is the error |
| DsdtParser.ParseData.Accept | bitvisor/core/acpi_dsdt.c:2495-2519 | a configuration that reads the byte is kept unless one with equal stacks, markers included, was, and otherwise freed |
| DsdtParser.ParseData.ReadByte | bitvisor/core/acpi_dsdt.c:2441-2454 | the byte is read if the element accepts it and the package has not ended |
| DsdtParser.ParseData.KeepNew | bitvisor/core/acpi_dsdt.c:2498-2513 | of configurations with equal stacks, markers included, only the first is kept |
| DsdtParser.ParseData.Known | bitvisor/core/acpi_dsdt.c:2498-2508 | the loop finds whether an equal configuration was kept |
| DsdtParser.ParseData.Free | bitvisor/core/acpi_dsdt.c:2514-2519 | the configuration gives up its three lists and no other configuration changes |
| Grammar.OutsAreReads | bitvisor/core/acpi_dsdt.c:2422-2519 | what the silent steps and the byte of one round give is derivable |
| Grammar.ReadsAreOuts | bitvisor/core/acpi_dsdt.c:2422-2519 | and everything derivable is given |
| Grammar.MeasureDecreases | bitvisor/core/acpi_dsdt.c:2422-2519 | in a grammar without left recursion an expansion lowers a measure, with or without a marker, so the rounds end |
| RefLists.Store.Fork | bitvisor/core/acpi_dsdt.c:701-743 | the new configuration has the list of the old one and all other lists are untouched; counts are exact |
| RefLists.Store.Push | bitvisor/core/acpi_dsdt.c:587-623 | one list grows by its new head, all others are untouched; counts are exact |
| RefLists.Store.Pop | bitvisor/core/acpi_dsdt.c:625-644 | one list loses its head, which is returned; all others are untouched and counts are exact |
| RefLists.Store.PopShared | bitvisor/core/acpi_dsdt.c:625-644 | the case of a node that others still use |
| RefLists.Store.PopLast | bitvisor/core/acpi_dsdt.c:625-644 | the case of a node nobody else uses, which is freed |
| RefLists.Store.Release | bitvisor/core/acpi_dsdt.c:646-683 | a list is given up without changing another, and only nodes nobody points to are freed |
| RefLists.Store.EqList | bitvisor/core/acpi_dsdt.c:795-823 | two lists compare equal iff their elements are equal, although the comparison stops at the first shared node |
| RefLists.NothingLeft | bitvisor/core/acpi_dsdt.c:2613-2616 | with exact counts and all lists empty there are no nodes |
| RefLists.PushCounted | bitvisor/core/acpi_dsdt.c:587-623 | counts stay exact when a node takes the place of the head it links to |
| RefLists.DropCounted | bitvisor/core/acpi_dsdt.c:625-683 | and when the last pointer to a node goes |
| RefLists.MoveCounted | bitvisor/core/acpi_dsdt.c:625-644 | and when a head moves from a shared node to the next |
| Mtrr.GetMtrrType | bitvisor/core/cache.c:81-141 | the loop computes the type by the rules: fixed ranges below 1 MiB, UC wins, then WT, then the first range, then TOP_MEM2 and the default |
| Mtrr.TypeRules | bitvisor/core/cache.c:81-141 | register by register, outside the fixed ranges: uncacheable without MTRRs or if some range that holds the address is, else write-through if some is, else the type of the first that holds it, else write-back between 4 GiB and TOP_MEM2 if forced, else the default |
| Mtrr.FixedRules | bitvisor/core/cache.c:88-107 | below 1 MiB: write-back if they are passed over, else the byte of the fixed range that holds the address |
| Mtrr.MtrrTypeEqual | bitvisor/core/cache.c:143-195 | the answer is true iff the MTRRs are on, the block is clear of the fixed ranges, and either an uncacheable range holds the block before any range cuts it, or no range cuts it and it does not cross TOP_MEM2 |
| Mtrr.AnswerMeans | bitvisor/core/cache.c:143-195 | for masks that fit the answer is true iff the MTRRs are on, no address of the block is in the fixed ranges, and either an uncacheable range holds all of it and none up to that one holds a part, or none holds a part and write-back is not forced at its start alone |
| Mtrr.UniformWhenContiguous | bitvisor/core/cache.c:143-195 | for contiguous masks reaching the address width, an address within it, and a block of up to 8 MiB, or of up to 4 GiB from its start, a true answer means that every address of the block has the type of the first |
| Mtrr.UniformWhenFits | bitvisor/core/cache.c:143-195 | the same for masks that, if they look inside the block, look at every bit of its number |
| Mtrr.ReliesOnFit | bitvisor/core/cache.c:143-195 | for one mask and block size up to 4 GiB the check is right about all registers and addresses iff the mask fits in that sense |
| Mtrr.GapMisleads | bitvisor/core/cache.c:166-188 | registers with a mask that does not fit, and a block with two types that the check calls equal |
| Mtrr.AlignedExactly | bitvisor/core/cache.c:143-195 | for addresses that start their block, as both callers pass them, the check is right about all registers with contiguous masks iff the blocks have at most 4 GiB |
| Mtrr.AnywhereExactly | bitvisor/core/cache.c:143-195 | for arbitrary addresses it is right iff the blocks have at most 8 MiB, the unit of TOP_MEM2 |
| Mtrr.NotRight | bitvisor/core/cache.c:187-194 | a block whose given address is not forced to write-back while another of its addresses is, is called equal and has two types |
| Mtrr.CutsExactly | bitvisor/core/cache.c:166-188 | a range is found to cut the block iff it holds one of its addresses and not another |
| Mtrr.UncutAllOrNone | bitvisor/core/cache.c:166-188 | a range that does not cut the block holds all of it or none |
| Mtrr.ContiguousFits | bitvisor/core/cache.c:166-188 | contiguous masks fit every block size |
| Mtrr.TrackHit | bitvisor/core/cache.c:109-135 | one more range that is hit updates the combined type by the rules |
| Mtrr.SameForce | bitvisor/core/cache.c:136-140 | addresses of one block of at most 8 MiB lie on the same side of 4 GiB and of TOP_MEM2 |
| Mtrr.SameForceAligned | bitvisor/core/cache.c:189-193 | for blocks of up to 4 GiB from their start the test of the last address against TOP_MEM2 is enough |
| Mtrr.FixedRanges | bitvisor/core/cache.c:94-106 | the index into the 88 fixed-range bytes is that of the 4, 16 or 64 KiB range that holds the address |
| Mmio.RangeCheckExact | bitvisor/core/mmio.c:52-87 | the modular arithmetic yields the exact intersection of two ranges, even when they wrap around the end of the address space |
| Mmio.RangeCheckLinear | bitvisor/core/mmio.c:52-87 | for ranges that do not wrap it is the interval between the larger start and the smaller end |
| Mmio.RangeCheckNotEmpty | bitvisor/core/mmio.c:79-86 | the asserted condition holds: a result is never empty and lies in both ranges |
| Mmio.BucketSpans | bitvisor/core/mmio.c:123-131 | sixteen buckets of 256 MiB, and one for everything from 4 GiB up |
| Mmio.EmptyHandle | bitvisor/core/mmio.c:52-87 | a handle of length zero would claim every access |
| Mmio.Mmio.constructor | bitvisor/core/mmio.c:503-514 | nothing is registered, and all invariants hold |
| Mmio.Mmio.AccessMemory | bitvisor/core/mmio.c:105-200 | for an access that ends before the end of the address space: it panics iff two unlocked handlers are concerned; it returns 0, without effect, iff no live handle overlaps; otherwise every byte is transferred exactly once, by the handler that owns it unless that declines, else by memory, and each handler concerned is called once with all of its part. Other accesses return 0 |
| Mmio.Mmio.AccessBucket | bitvisor/core/mmio.c:138-175 | the loop over one bucket |
| Mmio.Mmio.AccessTail | bitvisor/core/mmio.c:176-199 | the rest of the access, and the late call of an unlocked handler |
| Mmio.Mmio.AccessPage | bitvisor/core/mmio.c:202-229 | true iff a live handle overlaps the page, except for the last page of the address space |
| Mmio.Mmio.Range | bitvisor/core/mmio.c:430-457 | the end of the lowest live handle that overlaps the range, or zero if a search of all handles finds none; zero as well for ranges that reach the end of the address space |
| Mmio.Mmio.Add | bitvisor/core/mmio.c:231-249 | sorted insertion keeps the bucket in address order |
| Mmio.Mmio.ScanAdd | bitvisor/core/mmio.c:266-285 | the handle is listed in exactly the buckets it touches |
| Mmio.Mmio.ScanDel | bitvisor/core/mmio.c:251-285 | the handle is listed nowhere, and the buckets stay sorted |
| Mmio.Mmio.Register | bitvisor/core/mmio.c:336-368 | fails iff the flush fails or a live handle overlaps; otherwise the handle is listed and the live handles are disjoint again |
| Mmio.Mmio.Conflicts | bitvisor/core/mmio.c:343-346 | the linear search finds an overlap iff there is one, also for a range that wraps around the end of the address space; a range of no length is found to overlap every live handle |
| Mmio.Mmio.Unregister | bitvisor/core/mmio.c:383-398 | the handle serves nothing from now on, whether it is removed or only marked; all others stay |
| Mmio.Mmio.Unlock | bitvisor/core/mmio.c:407-426 | deferred removals are carried out as soon as the lock can be had, and exactly the marked handles go |
| Mmio.Mmio.Remove | bitvisor/core/mmio.c:394-396 | one handle leaves the list and the buckets and is freed |
| Mmio.BeforeHandle | bitvisor/core/mmio.c:138-149 | up to the first handle found nothing else owns a byte, even if handles span several buckets |
| Mmio.NothingBeyond | bitvisor/core/mmio.c:141-142 | a handle at or past the end of the access ends the search in all buckets |
| Mmio.LowestFirst | bitvisor/core/mmio.c:447-455 | the first handle found is the lowest of those that overlap |
| Mmio.Finish | bitvisor/core/mmio.c:176-199 | after the late call and its fallback everything is served once |
| Mmio.InsertKeeps | bitvisor/core/mmio.c:231-249 | the bucket after the insertion lists what touches it, in order |
| Pmap.Pmap.constructor | bitvisor/core/mm.c:1751-1777 | a fresh cursor holds nothing |
| Pmap.Pmap.Seek | bitvisor/core/mm.c:1796-1815 | entries that the new address shares are still right, the others are forgotten |
| Pmap.Pmap.Read | bitvisor/core/mm.c:1899-1956 | returns what a walk from the root finds at the level, synthesised entries of large pages included, if nobody else has changed the tables; and the same up to A and D marks if others have set some |
| Pmap.Pmap.Descend | bitvisor/core/mm.c:1940-1954 | one more entry is held |
| Pmap.Pmap.Write | bitvisor/core/mm.c:1958-1983 | the entry in memory is replaced by the masked one, unless it changed since it was read, and then it is read again; what the cursor holds stays right |
| Pmap.MaskedBits | bitvisor/core/mm.c:1961-1973 | bit by bit: what the mask names comes from the argument; otherwise RW, US and A are set but in PAE page directory pointers, D in page table entries only, and the rest is clear |
| Pmap.Pmap.AutoAlloc | bitvisor/core/mm.c:2005-2030 | missing tables are supplied, and no address is mapped differently afterwards; the assertion fails exactly if a large page is in the way, and then nothing has changed |
| Pmap.Pmap.Link | bitvisor/core/mm.c:2018-2028 | one new empty table is linked in by an entry that leaves the rights to those below it, and the tables stay a tree |
| Pmap.Pmap.PutPage | bitvisor/core/mm.c:703-717 | seek, autoalloc, read and write: unless a large page is in the way, the address is mapped as asked, and what was read is what was there; every address that does not share the entry is mapped as before |
| Pmap.Pmap.Run | bitvisor/core/mm.c:1779-2030 | after any sequence of seek, setlevel, read, write and autoalloc the entries held are those that a walk from the root finds and the tables are a tree; an address whose entries have not been written is mapped as at the start |
| Pmap.Pmap.Step | bitvisor/core/mm.c:1779-2030 | one operation: a read returns what a walk finds, a write is what a walk finds afterwards, and autoalloc panics exactly if a large page is in the way |
| Pmap.RightsDone | bitvisor/core/mm.c:1958-1983 | a write that gives a link other rights leaves a tree and concerns only addresses that share the entry |
| Pmap.StoreIsLocal | bitvisor/core/mm.c:1958-1983 | in a tree a store to one entry concerns only addresses that share it |
| Pmap.LinkFind | bitvisor/core/mm.c:2005-2030 | below a new empty table nothing is mapped, as before |
| Pmap.TreePath | bitvisor/core/mm.c:1899-1956 | in a tree two addresses that reach one entry agree from its level up |
| Pmap.CachedStop | bitvisor/core/mm.c:1899-1940 | a walk that ends early gives zero or the part of the large page |
| Pmap.CachedEntry | bitvisor/core/mm.c:1899-1956 | an entry held is what a walk from the root finds |
| Pmap.StoreKeeps | bitvisor/core/mm.c:1958-1983 | a store keeps the other entries held right |
| Pmap.MarkKeeps | bitvisor/core/mm.c:1958-1983 | and so does setting marks, even if the tables are no tree |
| PageTables.PartFrame | bitvisor/core/mm.c:1906-1937 | a small entry made from a 2 MiB, 4 MiB or 1 GiB entry has the page frame that the architecture defines (sections 4.3 to 4.5 of the Intel SDM, volume 3A), its rights, and its PAT bit in the PTE position |
| PageTables.PartMiddle | bitvisor/core/mm.c:1909-1920 | a 1 GiB entry read as one of 2 MiB is again a large page, with the frame that the architecture defines and the rights, marks and PAT bit of the whole, and reading on from it gives the same small page |
| PageTables.FindFrom | bitvisor/core/mm.c:1899-1956 | a walk may start at any level that it reaches |
| PageTables.MarkedSlots | bitvisor/core/mm.c:1899-1956 | A and D marks do not move entries |
| GuestWalk.GetPte | bitvisor/core/cpu_mmu.c:158-238 | the verdict is the one of the architecture for the tables at the start, whatever A and D bits other CPUs set meanwhile; on success the entries reported are those of the tables, the lowest one maps the frame that the architecture defines, all entries walked have A set and the leaf D on a write, and no other mark is made |
| EntryBits.ReservedBits | bitvisor/core/cpu_mmu.c:55-133 | on entries as words: the checks are those of the table of masks, an entry has a reserved bit iff it has a bit of the mask for its format, level and EFER.NXE |
| GuestWalk.LeafIs | bitvisor/core/cpu_mmu.c:196-221 | the page is mapped by the highest entry with PS set of the levels that have large pages, or else at the lowest level |
| GuestWalk.SuccessMeans | bitvisor/core/cpu_mmu.c:196-225 | a walk succeeds iff every entry from the root down to the one that maps the page is present, has no reserved bit and permits the access |
| GuestWalk.RefusalMeans | bitvisor/core/cpu_mmu.c:200-237 | otherwise the error names what is wrong with the highest entry that does not permit it |
| GuestWalk.WalkLevel | bitvisor/core/cpu_mmu.c:196-221 | one level: checked, marked, or refused with the right error; retries end |
| GuestWalk.Visit | bitvisor/core/cpu_mmu.c:197-220 | a failed exchange means that a bit was missing before, so there are at most three tries |
| GuestWalk.Fetch | bitvisor/core/cpu_mmu.c:199-211 | read and checks of one level; a part of a large page passes and is never written back |
| GuestWalk.Mark | bitvisor/core/cpu_mmu.c:135-151 | the marks that are missing are set, or another CPU has set one |
| GuestWalk.CheckPart | bitvisor/core/cpu_mmu.c:115-133 | where a large page passes the checks, the reserved bits included, so do its parts |
| GuestWalk.OutcomeAt | bitvisor/core/cpu_mmu.c:196-221 | the cursor is where the walk of the architecture is |
| GuestWalk.Finished | bitvisor/core/cpu_mmu.c:196-225 | what the loop leaves behind is the answer |
| GuestWalk.MarkCaused | bitvisor/core/cpu_mmu.c:135-151 | a mark that the walk sets is accounted for: A on the path, D on the leaf of a write |
| Processes.Processes.constructor | bitvisor/core/process.c:170-184 | at start-up only the kernel is valid |
| Processes.Processes.Create | bitvisor/core/process.c:254-309 | the first free slot gets a generation it never had, its first entry point and nothing open, and all other processes stay; or there is none |
| Processes.Processes.Call | bitvisor/core/process.c:430-517 | it is refused exactly for an invalid slot, another generation, no entry point or no room; a call that enters a process enters the one that was created with the slot and the generation of the descriptor, and that one has not been cleaned up |
| Processes.Processes.Return | bitvisor/core/process.c:423-427 | running was the number of active calls of the pid on all CPUs and goes down by one; cleanup happens iff the process has exited and this was the last call, and all other processes stay |
| Processes.Processes.Cleanup | bitvisor/core/process.c:334-345 | its assertions follow, its generation goes up, the slot is free, and exactly its names disappear |
| Processes.Processes.OpenDescriptor | bitvisor/core/process.c:231-252 | the first free entry takes the descriptor, or -1 |
| Processes.Processes.FetchDescriptor | bitvisor/core/process.c:674-688 | the descriptor is read under the lock and used after it is released |
| Processes.Processes.FindName | bitvisor/core/process.c:613-621 | a registered name stands for the kernel or for a process that still has its slot |
| Processes.Processes.RegisterName | bitvisor/core/process.c:565-588 | the name stands for the registering process, or -1 for a name in use or no free entry |
| Processes.Processes.SendDescriptor | bitvisor/core/process.c:713-745 | a copy goes to the process that the descriptor names and to no later occupant of its slot, or -1 if that is gone or has no free entry among the first eight |
| Processes.Processes.CloseDescriptor | bitvisor/core/process.c:646-657 | the entry is free again |
| Processes.Processes.SetFunc | bitvisor/core/process.c:534-544 | the entry point of one entry changes |
| Processes.WithDscIs | bitvisor/core/process.c:243-245 | one entry of one process changes, and no other entry of any process |
| Processes.CurrentIs | bitvisor/core/process.c:371-427 | the current process is the one called last whose call has not returned, or the kernel |
| Processes.Processes.Kill | bitvisor/core/process.c:318-329 | only a process with active calls can be marked |
| Processes.Processes.Step | bitvisor/core/process.c:231-745 | each section keeps all invariants; generations and cleanups are never forgotten |
| Processes.Processes.Run | bitvisor/core/process.c:231-745 | so does every interleaving of the sections of all CPUs |
| Processes.Processes.GoneForever | bitvisor/core/process.c:430-459 | once a process is cleaned up nothing that names its slot and generation reaches anybody, no name is left and no CPU is inside |
| Processes.Processes.CleanedWhenEmpty | bitvisor/core/process.c:525-526 | a process that has exited has been cleaned up iff no CPU is inside |
| Processes.FramesMoved | bitvisor/core/process.c:370-427 | running stays the number of active calls |
| Processes.CreateGenerations | bitvisor/core/process.c:280-281 | no two processes ever have the same slot and generation |
| Processes.GoneExits | bitvisor/core/process.c:334-345 | a cleanup adds a process that had not been cleaned up |
| Barrier.Barrier.Enter | bitvisor/core/ap.c:382-390 | a CPU goes on at once iff all the others have entered; the count stays below the number of CPUs |
| Barrier.Barrier.Poll | bitvisor/core/ap.c:391-394 | a waiting CPU leaves iff every CPU has entered its round |
| Barrier.Barrier.NotifiedOnce | bitvisor/core/ap.c:380-394 | the 32-bit counter advances at most once while a CPU waits, so it shows the release even when it wraps |
| Barrier.Barrier.NobodyLeavesEarly | bitvisor/core/ap.c:376-395 | nobody leaves a round that somebody has not entered |
| Barrier.Barrier.OneRoundApart | bitvisor/core/ap.c:376-395 | no two CPUs differ by more than one completed round |
| Barrier.Barrier.Released | bitvisor/core/ap.c:391-394 | once all have entered a round everyone waiting there leaves |
| Barrier.Barrier.NoDeadlock | bitvisor/core/ap.c:376-395 | they never all wait in vain |
| Barrier.Barrier.Run | bitvisor/core/ap.c:376-395 | every interleaving keeps this |
| Barrier.LastIn | bitvisor/core/ap.c:385-389 | the count reaches the number of CPUs iff this is the last one |
| StringOps.Interpreter.StringInstruction | bitvisor/core/cpu_interpreter.c:1304-1441 | one call has the effect of min(count, 17) single iterations if interrupts are enabled and of all of them if not, none for a count of 0, and IP advances iff the count is done |
| StringOps.Interpreter.Execute | bitvisor/core/cpu_interpreter.c:1304-1441 | executed again until IP advances, it has the effect of exactly the counted iterations, one at a time, in the least number of calls |
| StringMemory.Perform | bitvisor/core/cpu_interpreter.c:1304-1441 | on guest memory by bytes: RAX stays, the counted part of RCX goes down by the count and the index registers move by as many operands, up or down and wrapping in their width; where the elements do not wrap around, the block at ES:RDI is afterwards a copy of the source block, even of an overlapping one that the direction allows, or filled with RAX, and no other byte has changed |
| StringMemory.NextElement | bitvisor/core/cpu_interpreter.c:1354-1427 | iteration n stores one element at its offset, a copy of the source element as it is then or RAX, and nothing else, wrapping or not |
| StringMemory.ElementsFilled | bitvisor/core/cpu_interpreter.c:1354-1427 | if no destination element overlaps another or a source element read later, each is a copy of its source element, or of RAX |
| StringMemory.OnlyElements | bitvisor/core/cpu_interpreter.c:1354-1427 | only bytes of destination elements change |
| StringMemory.LittleByte | bitvisor/core/cpu_interpreter.c:1355-1400 | loads and stores of values agree byte by byte |
| StringOps.Interpreter.Iterate | bitvisor/core/cpu_interpreter.c:1335-1427 | the body of the loop on local registers is one iteration |
| StringOps.RegistersAfter | bitvisor/core/cpu_interpreter.c:1402-1427 | after n iterations the 16, 32 or 64-bit part of an index register has moved by n strides in the direction of DF and wrapped, and the rest of it is unchanged |
| StringOps.CountDown | bitvisor/core/cpu_interpreter.c:1335-1353 | n iterations take n off the counted part of RCX |
| StringOps.TimesAdd | bitvisor/core/cpu_interpreter.c:1428-1432 | iterations can be split between calls |
| StringOps.WidthsCount | bitvisor/core/cpu_interpreter.c:1337-1352 | each width counts down within its part |

## Left out

- Hardware and glue: inline assembly, MSR and port I/O, APIC, boot, panic and printing, network and text utilities.
- mempool_* of mm.c: its split branch does not shrink the length of the remaining block and keep is never set, so no
  partition claim holds. alloc and free of the slab lists and mapmem are not modelled either; they would add easier
  members of the kind already proved for pages.
- Shadow page tables: one vCPU, guest-physical addresses below 2^36, keys and entries as records in place of bit
  fields, page frames of shadow pages named by slot, clear_area as 64 booleans with the lowest bit first. What other
  vCPUs and hardware TLBs do between steps is not modelled, nor the statistics counters.
- Spt.Spt.ShadowAgrees: speaks of the two lowest levels; guest edits of PML4 and PDPT entries are not followed,
  because the fast path of update_cr3 and INVLPG do not clear the top tables.
- Spt.Spt.MapPage: the rights are those that the guest walk has gathered for the fault; that later faults may find
  them changed in the guest tables is covered for frames (ShadowAgrees), not for rights. The entries above the PDE
  admit everything.
- Spt.KeysAgree: one entry of the guest tables is either a large page or a link, so that faults through a page
  directory that maps itself and holds large pages, where one entry is read both ways, are skipped.
- Spt.Spt.Unmap: extern_mapsearch is modelled for the calling vCPU only.
- RingTables.Tables.MapPage: is for a guest with paging, whose page directories are shadowed; without paging the last
  two levels hang from the top-level tables. The reverse map of CPU_MMU_SPT_2 is not modelled, so that what makerdonly
  answers is arbitrary, and top-level tables are a map from gigabytes to directories that may run out at any time.
- Buddy allocator: addresses are page numbers and XOR with a power of two is written as the arithmetic it is on them.
  The page that alloc_page returns is not cleared by the allocator, and contents are not modelled.
- Parser: expansion depends on the symbol and the next byte, over an abstract grammar without left recursion; the full
  AML grammar and opcode tables, names, the search for sleep states and its exception to eqlist are left out.
- LengthForms.FormVerdict: its condition is sufficient and not necessary. The four alternatives of AML_PkgLength all end
  in the same way and do not meet it; for the AML grammar the condition of Verdict has to be looked at input by input.
- DsdtParser.ParseData.AddBuf: copies the package length, which the program leaves unset; UnsetLengthUnused shows that
  nothing depends on it.
- RefLists.Store.Push: the three kinds of nodes (path, buffer and limit) have the same operations and are modelled
  once; the name lengths and flags of path nodes are left out with the names.
- Mtrr.GetMtrrType: registers are records (E, FE and V bits, masked fields, type bytes); reading and writing them by
  MSR is left out.
- Mmio.Mmio.Unlock: the loop that frees unregistered handles reads the link of a handle after it has freed it; a
  sequence of handles cannot show that.
- Mmio.Mmio.Register: handles have a positive length and do not wrap, as its callers see to; flush_tlb_entry and the
  interpreter called by mmio_access_page are parameters or left out, and so is the reader count of mmio_lock.
- Pmap.Pmap.Run: is for a cursor whose tables nobody else changes; calls that would link an arbitrary table or store
  above the lowest entry held with other than new rights are skipped. The walk under marks of other CPUs is GetPte.
- Pmap.Pmap.Write: the tables must form a tree that only this cursor changes, or only marks are set; stores above
  the lowest entry held must keep the present, PS and address bits, as all callers do. A linear address is the
  sequence of its table indices; sign extension of bits 47 and up and addresses of 2^32 and more in 32-bit modes are
  left out. Table pages of different levels do not overlap except as whole pages.
- GuestWalk.GetPte: paging on, with PSE or PAE (without both, the cursor would still treat PS as set), a 36-bit
  physical width, and no marks by others in a PAE page directory pointer table.
- Processes.Processes.Create: the program always loads; a failing process_load would make process 0 lose its first
  entry point. Generations are unbounded. Address spaces, stacks and buffers of messages are left out, and whether
  they can be had is a parameter.
- Processes.Processes.RegisterName: a name disappears only with its process; msgunregister and the limit flag of a
  process are left out.
- Processes.Processes.FetchDescriptor: descriptor numbers are below NUM_OF_MSGDSC, as the array demands.
- Barrier.Barrier.Enter: the section under the lock is one step; waiting CPUs only see the counter, which it changes
  once.
- StringOps.Interpreter.StringInstruction: MOVS and STOS without faults; INS and OUTS, and instructions that stop
  midway, are left out. A 32-bit part leaves the upper half of a register alone, as the code does; a processor in
  64-bit mode clears it.
