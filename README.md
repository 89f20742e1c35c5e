# Aether kernel core, modelled in Dafny

This project models the sequential core of the Aether hobby kernel and proves
properties about it. The core has eight parts:

- the ELF64 loader of `execve` and the initial user stack it builds (`Elf`, `UserStack`);
- the dynamic relocator for x86-64 RELA relocations (`Dynlink`);
- the task control block, the pid counter, the global task list and the run queue (`Sched`);
- the RAM filesystem (`RamFs`);
- the system-call dispatcher (`Syscall`);
- the AArch64 page-table walk that grants EL0 access (`Mmu`);
- the context switch and the stack seed of a new task (`Multitasking`);
- the user-mode shell's command handling and line reader (`Shell`).

`Words` (common.dfy) holds the shared vocabulary: `u8`/`u64`, `Option`, `Result`,
little-endian decoding and byte stores into memory.

Raw pointer accesses become accesses to a memory map. Byte memory is
`map<int, u8>`. The relocator's word memory is `map<int, u64>`. The
pointer-sized words that `setup_user_stack` pushes are kept in a separate
`map<int, int>` beside the byte memory of the strings. Page tables are a map from
physical address to descriptor. A read of an address that is not in the map is
where the kernel would fault. Such reads are excluded by a precondition or
become an explicit `None`.

Integers are unbounded. Where the source uses a wrapping operation, the model
reduces modulo 2^64. Where the source uses a plain `+` or `-`, the overflow would
panic in a debug build. For those the model has a precondition or a `None` result.

Objects that the source updates in place are classes:

- `Sched.Task` and `Sched.Kernel`;
- `RamFs.RamNode` and `RamFs.RamFS`;
- `Multitasking.Cpu`, the registers and stack that `switch_context` acts on.

Loops in the source are `while`/`for` loops in methods. Each method is proved
against a specification function, and the lemmas state the properties of that
function.

The loader is modelled as the code behaves:

- `load_elf` applies no base address: segments go to `p_vaddr` and the entry point is `e_entry`.
- `load_elf` treats a `PT_INTERP` header like any other non-load header and records no program-header address for an `AT_PHDR` entry.
- `setup_user_stack` writes no auxiliary vector; the frame is argc, the argv and envp pointers and their NULL terminators.

Section 3.4.1 of the System V AMD64 psABI requires the stack pointer to be
16-byte aligned at process entry, and the final `sp &= !0xF` of
`setup_user_stack` (src/syscall/elf.rs:178) shows that the code means to meet it.
The pushes after that mask leave the returned pointer aligned only for some
inputs (see Findings).

## Model

| member | source | states |
|---|---|---|
| Words.AlignDown16 | src/syscall/elf.rs:158 | `x & !0xF` is at most `x`, less than 16 below it, and a multiple of 16 |
| Words.StoreBytesEffect | src/syscall/elf.rs:107-111 | after a copy of `src` to `dst`, `[dst, dst+len)` holds `src` and every other byte is unchanged |
| Elf.PhdrOffsetIsProduct | src/syscall/elf.rs:85 | program header `i` is located at `e_phoff + i * e_phentsize` |
| Elf.ParseHeader | src/syscall/elf.rs:10-25 | `e_entry` and `e_phoff` are the little-endian u64s at bytes 24 and 32, `e_phentsize` and `e_phnum` the u16s at bytes 54 and 56, each within its width |
| Elf.ParsePhdr | src/syscall/elf.rs:29-39 | `p_type` is the u32 at byte 0; `p_offset`, `p_vaddr`, `p_filesz` and `p_memsz` the u64s at bytes 8, 16, 32 and 40, each within its width |
| Elf.PhdrTable | src/syscall/elf.rs:84-93 | the table has `e_phnum` entries; entry `i` is present exactly when `e_phoff + i * e_phentsize + 56` fits in the image, and is then the header parsed at `e_phoff + i * e_phentsize` |
| Elf.Step | src/syscall/elf.rs:95-125 | a PT_LOAD adds exactly one segment `(p_vaddr, p_memsz)` and its requests; any other type, PT_INTERP included, adds nothing |
| Elf.CopySegment | src/syscall/elf.rs:104-118 | memory after the copy and BSS fill is `SegmentMemory`; the copy and then the zero fill are logged after the mapping request |
| Elf.ReadPhdr | src/syscall/elf.rs:85-93 | reads header `i` from `e_phoff + i * e_phentsize`, None exactly when it would run past the data |
| Elf.VisitPhdr | src/syscall/elf.rs:95-125 | succeeds exactly when the header is not a PT_LOAD whose file bytes run past the data; on success it performs `Step`; on failure only the mapping request was made and memory is unchanged |
| Elf.WalkProgramHeaders | src/syscall/elf.rs:84-131 | the loop's result, memory and requests equal the walk specification over the header table |
| Elf.LoadElf | src/syscall/elf.rs:58-132 | the result, the memory and the request log equal `LoadSpec(data, mem)` |
| Elf.HeaderChecksFirst | src/syscall/elf.rs:59-76 | short image, bad magic and class != 2 each give their own error, with memory untouched and no request; a header that passes them never yields these errors |
| Elf.WalkOkIff | src/syscall/elf.rs:84-131 | the walk succeeds iff every header is in bounds and every PT_LOAD lies in the file; a failure is PhdrOutOfBounds or the slice panic |
| Elf.SucceedsAllPresent | src/syscall/elf.rs:84-126 | a walk that succeeds read an in-bounds header at every index |
| Elf.WalkFirstFailure | src/syscall/elf.rs:87-89 | a failing walk reports the first failing header: out of bounds, or a PT_LOAD whose slice would panic |
| Elf.WalkOkSegments | src/syscall/elf.rs:121-130 | on success, the segments are one `(p_vaddr, p_memsz)` per PT_LOAD in header order and the entry point is `e_entry` unchanged |
| Elf.WalkOkEvents | src/syscall/elf.rs:102-118 | on success, each PT_LOAD in order requests `make_user_accessible(p_vaddr, p_memsz)` before its stores |
| Elf.LoadOk | src/syscall/elf.rs:58-131 | a successful load passed the header checks, read every header in bounds, reports `e_entry`, one segment per PT_LOAD, and the mapping-then-store requests |
| Elf.SegmentMemoryEffect | src/syscall/elf.rs:105-118 | one PT_LOAD leaves file bytes below `p_filesz`, zeros up to `p_memsz`, and every other byte unchanged |
| Elf.WalkFrame | src/syscall/elf.rs:84-126 | bytes no remaining PT_LOAD covers keep their value through the walk |
| Elf.WalkLoadsSegmentHere | src/syscall/elf.rs:105-118 | the byte PT_LOAD `j` writes survives the rest of the walk when no later PT_LOAD covers it |
| Elf.WalkLoadsSegment | src/syscall/elf.rs:105-118 | after a successful walk, such a byte holds `data[p_offset + k]` for `k < p_filesz` and 0 in the BSS |
| Elf.LoadedBytes | src/syscall/elf.rs:105-118 | the same for `load_elf` itself: memory holds the file bytes and a zeroed BSS of every PT_LOAD not overwritten by a later one |
| UserStack.CopyStrings | src/syscall/elf.rs:156-175 | the string loop leaves `sp` and the pointer list as `PlaceAll` computes them and memory as `StoreStrings` |
| UserStack.PushReversed | src/syscall/elf.rs:185-188 | pushing pointers in reverse leaves them in input order upward from the new `sp`, `8 * n` below the old one; no other word changes |
| UserStack.PushBlock | src/syscall/elf.rs:181-198 | a NULL terminator, then the pointers, lie below the words already pushed |
| UserStack.PushFrame | src/syscall/elf.rs:178-202 | from the returned `sp` upward: argc, argv pointers, 0, envp pointers, 0; `sp = floor - 8 * (argc + envc + 3)`; no other word changes |
| UserStack.SetupUserStack | src/syscall/elf.rs:136-205 | the returned `sp` is the layout's; memory holds the stored strings; the frame is read upward from `sp`; no word outside `[sp, floor)` changes |
| UserStack.PlaceFromBelow | src/syscall/elf.rs:157-158 | placing strings never moves `sp` up |
| UserStack.PlaceFromShape | src/syscall/elf.rs:156-175 | each placed string is 16-aligned, ends with its NUL at or below the next one, and `sp` ends at the lowest |
| UserStack.LayoutLengths | src/syscall/elf.rs:156-175 | one pointer is recorded per argv and per envp string |
| UserStack.PlaceAllShape | src/syscall/elf.rs:156-175 | all strings placed below a top are separated, 16-aligned, and `sp` is the lowest of them |
| UserStack.StoreCStringEffect | src/syscall/elf.rs:160-161 | one copy plus its NUL store puts the string and a 0 at `p` and changes nothing else |
| UserStack.StoreStringsEffect | src/syscall/elf.rs:156-175 | after storing separated strings, each string with its NUL is at its pointer and nothing outside `[lowest, top)` changed |
| UserStack.StackStringsPlaced | src/syscall/elf.rs:156-175 | every envp and argv string with its NUL is at its 16-aligned pointer; envp copies lie between the argv copies and `stack_top`, argv copies below them; no byte outside that range changes |
| UserStack.StackFrameShape | src/syscall/elf.rs:178-204 | the floor is 16-aligned and below the strings; the frame fills `[sp, floor)`; `sp` is 8-aligned, and 16-aligned exactly when argc + envc is odd |
| UserStack.StackFitsWhen | src/syscall/elf.rs:156-202 | a stack top above the strings' size plus 16 bytes each and the frame's words keeps every subtraction on `sp` non-negative |
| UserStack.AsWrittenMisaligned | src/syscall/elf.rs:178-204 | with stack top 0x8000, argv "a", "bc" and no envp, the returned `sp` is 0x7FB8, which is 8 mod 16 |
| UserStack.SetupUserStackPadded | src/syscall/elf.rs:136-205 | the corrected layout: same strings and frame, one padding word when argc + envc is even, and the returned `sp` is 16-aligned |
| Dynlink.ParseDynamic | src/syscall/dynlink.rs:84-129 | the result is always Some, the fold of the entries before the first DT_NULL |
| Dynlink.NullAtUnique | src/syscall/dynlink.rs:100-105 | the walk's stopping point, the first DT_NULL, is unique |
| Dynlink.ApplyDyn | src/syscall/dynlink.rs:107-120 | each of the seven tracked tags sets only its own field to `d_val`; name and base never change; any other tag, DT_NEEDED included, leaves the record as it was |
| Dynlink.ParsedFields | src/syscall/dynlink.rs:85-128 | name "main", the given base, and each tracked field holds the value of the last entry with its tag, or 0 when there is none |
| Dynlink.UntrackedTagsIgnored | src/syscall/dynlink.rs:107-120 | an entry with any other tag, DT_NEEDED included, leaves the record unchanged |
| Dynlink.ParseReadsPrefix | src/syscall/dynlink.rs:100-105 | nothing after the first DT_NULL is read: memory that agrees up to it gives the same record |
| Dynlink.RType | src/syscall/dynlink.rs:163 | the type is `r_info` mod 2^32, below 2^32 |
| Dynlink.RSym | src/syscall/dynlink.rs:164 | the symbol index is `r_info / 2^32`, below 2^32 |
| Dynlink.RInfoRoundTrip | src/syscall/dynlink.rs:163-164 | splitting `r_info` and packing it again are inverse, in both directions |
| Dynlink.RelocationFormulas | src/syscall/dynlink.rs:162-214 | RELATIVE writes B + A (wrapping); GLOB_DAT/JUMP_SLOT write B + S when symtab != 0 and S != 0, else nothing; R_X86_64_64 writes B + S + A when symtab != 0 and sym > 0; NONE and others write nothing; writes go only to `base + r_offset` |
| Dynlink.RelocationPatch | src/syscall/dynlink.rs:162-214 | a write goes only to the mapped target `base_addr + r_offset` below 2^64; an out-of-range target is a panic; None only for an out-of-range or unmapped target or symbol, or an overflowing `base + st_value`; a type that reads no symbol and is not RELATIVE writes nothing |
| Dynlink.ApplyRelocation | src/syscall/dynlink.rs:162-214 | memory after the call is the relocation's patch applied; the word set is kept and only the target word may change |
| Dynlink.RelocationIdempotent | src/syscall/dynlink.rs:162-214 | applying a relocation a second time makes the same patch, unless its target is the symbol entry it reads |
| Dynlink.ApplyTable | src/syscall/dynlink.rs:139-145 | the loop applies entries `0..count` in index order, each read at `table + 24 i` from memory as the earlier ones left it |
| Dynlink.ApplyRelocations | src/syscall/dynlink.rs:132-160 | the RELA table (`relasz / 24` entries), then the JMPREL table (`pltrelsz / 24`), each skipped when its address or size is 0 |
| Dynlink.TableFrame | src/syscall/dynlink.rs:139-158 | relocating a table adds no word and never changes a word below the load base |
| Dynlink.RelocatedFrame | src/syscall/dynlink.rs:132-160 | the same for both tables together |
| Dynlink.NoTablesNoChange | src/syscall/dynlink.rs:136-159 | with neither table present memory is unchanged |
| Dynlink.ShortTableNoChange | src/syscall/dynlink.rs:137-139 | a table smaller than one 24-byte entry changes nothing |
| Dynlink.GetString | src/syscall/dynlink.rs:216-228 | the result is the bytes at `strtab + offset` before the first NUL, at most 256, none of them NUL, followed by a NUL unless the cap was hit |
| Dynlink.ByteOfString | src/syscall/dynlink.rs:221 | every byte of the result is a mapped non-NUL byte at its address |
| Dynlink.BoundedCStringUnique | src/syscall/dynlink.rs:216-227 | the bounded C-string read has exactly one possible result |
| Sched.Task.constructor | src/sched/task.rs:48-58 | a task starts Ready with exit status 0 and the given fields |
| Sched.Task.AddFile | src/sched/task.rs:86-95 | returns the lowest empty slot (or the old length), the table becomes `WithFile`, and no other field changes |
| Sched.FreeSlot | src/sched/task.rs:87-94 | every slot below the result is taken; the result is empty or is the length |
| Sched.FreeSlotIs | src/sched/task.rs:87-94 | the lowest empty slot is the only index with those properties |
| Sched.WithFile | src/sched/task.rs:86-95 | only the chosen slot changes, to the file; the table grows by one exactly when it was full |
| Sched.Task.GetFile | src/sched/task.rs:97-103 | None when `fd` is past the end of the task's table or the slot is empty, the stored descriptor otherwise |
| Sched.LookupFd | src/sched/task.rs:97-103 | None when `fd` is past the end or the slot is empty, the stored descriptor otherwise |
| Sched.AddThenGet | src/sched/task.rs:86-103 | `get_file` of the returned fd finds the file; every other fd finds what it found before |
| Sched.FirstFdOfNewTask | src/sched/task.rs:61-63 | the stdio slots start empty, so a new task's first `add_file` returns 0 |
| Sched.Kernel.constructor | src/sched/task.rs:43 | the pid counter starts at 1 and both lists are empty |
| Sched.Kernel.NewTask | src/sched/task.rs:46-66 | takes the next pid and bumps the counter; Ready, parent 0, zeroed stack, three empty stdio slots, all saved values 0 |
| Sched.Kernel.Fork | src/sched/task.rs:69-83 | takes the next pid; Ready child of the parent with its stack, stack top and descriptor table, the given RSP/RIP; the parent is unchanged |
| Sched.Kernel.SpawnTask | src/sched/queue.rs:25-36 | appends the task to the tail of the task list and the run queue and returns its pid |
| Sched.Kernel.GetTaskByPid | src/sched/queue.rs:39-42 | None exactly when no task in the task list has the pid, otherwise a listed task with that pid |
| Sched.FindTask | src/sched/queue.rs:39-42 | None exactly when no listed task has the pid, otherwise a listed task with that pid |
| Sched.FindAfterAppend | src/sched/queue.rs:25-42 | appending a task never changes the answer for a pid already present, and finds the new task for its own new pid |
| Sched.SpawnFresh | src/sched/queue.rs:25-36 | a task with a fresh counter pid keeps pids distinct, and looking its pid up finds it |
| Sched.FindUnique | src/sched/queue.rs:39-42 | with distinct pids every listed task is the one found for its pid |
| RamFs.LessIrreflexive | src/fs/ramfs.rs:46 | the `String` key order is irreflexive |
| RamFs.LessTransitive | src/fs/ramfs.rs:46 | and transitive |
| RamFs.LessTotal | src/fs/ramfs.rs:46 | and total on distinct names |
| RamFs.Find | src/fs/ramfs.rs:134 | `children.get(name)` is None exactly when no child has the name, otherwise a child's node |
| RamFs.Insert | src/fs/ramfs.rs:25 | after `children.insert`, the name finds the new node and every other name finds what it did |
| RamFs.InsertSorted | src/fs/ramfs.rs:25 | insertion keeps the children in ascending name order |
| RamFs.ReadBytes | src/fs/ramfs.rs:67-78 | nothing at or past the end; otherwise `min(buf.len, len - offset)` bytes, each the content byte at `offset + k` |
| RamFs.Written | src/fs/ramfs.rs:83-94 | length `max(len, offset + |buf|)`; `buf` over `[offset, offset + |buf|)`, old content elsewhere, zero in any gap |
| RamFs.WriteThenRead | src/fs/ramfs.rs:67-94 | reading back at the written offset returns exactly the written bytes |
| RamFs.WriteKeepsOthers | src/fs/ramfs.rs:83-94 | a write never shrinks the file and keeps every byte outside its range |
| RamFs.RamNode.constructor | src/fs/ramfs.rs:51-63 | a node holds the given file content or directory |
| RamFs.RamNode.ReadAt | src/fs/ramfs.rs:67-81 | a file copies `ReadBytes` into the front of `buf` and leaves the rest; a directory returns 0 and leaves `buf` |
| RamFs.RamNode.WriteAt | src/fs/ramfs.rs:83-97 | a file's content becomes `Written` and the call returns `|buf|`; a directory returns 0 and is unchanged |
| RamFs.RamNode.GetMetadata | src/fs/ramfs.rs:99-113 | a file: its length, mode read+write, type File; a directory: size 0, read+write+exec, type Directory |
| RamFs.RamNode.Poll | src/fs/ramfs.rs:115-128 | a directory lists each child's name with 0, in the map's order, and for a valid directory the names are strictly ascending and distinct; a file gives NotADirectory |
| RamFs.RamNode.Lookup | src/fs/ramfs.rs:130-142 | the named child, NotFound exactly when no child has the name, NotADirectory on a file |
| RamFs.PollAscending | src/fs/ramfs.rs:115-128 | for a sorted directory, the listing is strictly ascending, so no name repeats |
| RamFs.RamFS.constructor | src/fs/ramfs.rs:16-20 | the root is a fresh empty directory, and the filesystem is valid |
| RamFs.RamFS.AddFile | src/fs/ramfs.rs:22-27 | the root's children become the insertion of a fresh file node holding the content, and the children stay in strictly ascending name order; a file root is unchanged |
| RamFs.AddFileEffect | src/fs/ramfs.rs:22-27 | after `add_file` the name finds the new node, other names are unaffected, and the root stays in name order |
| Syscall.AsIsize | src/syscall/mod.rs:39 | `count as isize` lies in the i64 range, is congruent to `count` mod 2^64, and is non-negative exactly when `count` fits |
| Syscall.AsIsizeInjective | src/syscall/mod.rs:39 | distinct counts give distinct results |
| Syscall.SysWrite | src/syscall/mod.rs:30-42 | always returns; on fd 1 or 2 the result is the count reinterpreted as an isize, on any other fd -1; a non-negative result is the count of a write to fd 1 or 2 |
| Syscall.Dispatch | src/syscall/mod.rs:16-23 | diverges exactly for exit; write is `sys_write` of the three arguments; every other number returns -1 |
| Syscall.SysRead | src/syscall/mod.rs:25-28 | every read returns -1 |
| Syscall.SysExit | src/syscall/mod.rs:44-47 | exit never returns |
| Syscall.DispatchFails | src/syscall/mod.rs:16-23 | only exit diverges; every number other than write returns -1, open, close, fork and execve included |
| Syscall.DispatchWrite | src/syscall/mod.rs:30-42 | a write to fd 1 or 2 returns the count whatever the bytes are; any other fd gives -1 |
| Syscall.DispatchSucceeds | src/syscall/mod.rs:16-42 | a call returns something other than -1 iff it is a write to fd 1 or 2 of a count other than 2^64 - 1 |
| Syscall.WriteCountFits | src/syscall/mod.rs:39 | a write's result is non-negative iff the count fits in an isize, and then it is the count |
| Mmu.PageUpdate | src/arch/aarch64/mmu.rs:190-195 | a page descriptor ends with AP[7:6] = 01, AF set and UXN clear, and every other bit is kept |
| Mmu.BlockUpdate | src/arch/aarch64/mmu.rs:156-174 | a block descriptor gains AP[6] and AF, loses no bit, and no other bit changes |
| Mmu.L0Table | src/arch/aarch64/mmu.rs:117 | `ttbr0 & 0xFFFF_FFFF_F000` is page-aligned, below 2^48, and equals `ttbr0` with bits 63:48 and 11:0 cleared |
| Mmu.BlockOfReadOnly | src/arch/aarch64/mmu.rs:153-179 | a block mapped read-only at EL1 (AP = 10) ends with AP = 11 and keeps UXN |
| Mmu.UpdateKeepsWalkBits | src/arch/aarch64/mmu.rs:156-197 | both rewrites keep VALID, TABLE and the output address |
| Mmu.UpdateCompose | src/arch/aarch64/mmu.rs:156-197 | rewriting twice equals rewriting once with the stronger rewrite, so each rewrite is idempotent |
| Mmu.Indices | src/arch/aarch64/mmu.rs:131-134 | four indices, each below 512 |
| Mmu.WalkFrom | src/arch/aarch64/mmu.rs:138-187 | a descriptor the walk returns was read from mapped memory |
| Mmu.NextAddr | src/arch/aarch64/mmu.rs:141-201 | every iteration advances the address |
| Mmu.PageRounding | src/arch/aarch64/mmu.rs:125-127 | the walk starts at the page holding `start_addr` and ends at the first page boundary at or after `start_addr + len` |
| Mmu.ReadDescriptors | src/arch/aarch64/mmu.rs:131-187 | the reads of one iteration find the specified visit: an invalid entry, an L1 or L2 block, or an L3 page |
| Mmu.RewriteDescriptor | src/arch/aarch64/mmu.rs:156-157 | the write of one iteration adds that visit's rewrite to those already made |
| Mmu.RewriteRange | src/arch/aarch64/mmu.rs:129-202 | the loop leaves every descriptor rewritten by the walk's marks and nothing else changed |
| Mmu.MakeUserAccessible | src/arch/aarch64/mmu.rs:107-205 | the tables after the call are the originals rewritten by the marks of the walk as written |
| Mmu.MakeUserAccessibleAligned | src/arch/aarch64/mmu.rs:107-205 | the corrected walk: the same rewrites, with the address moved to the next block boundary after a block |
| Mmu.RewrittenKeepsWalkBits | src/arch/aarch64/mmu.rs:156-197 | rewritten tables agree with the originals on VALID, TABLE and output addresses |
| Mmu.WalkSameWalkBits | src/arch/aarch64/mmu.rs:138-187 | one iteration depends only on those bits, so a rewrite never changes a walk's path |
| Mmu.WalkMarksSameWalkBits | src/arch/aarch64/mmu.rs:129-202 | the whole walk over such tables makes the same rewrites |
| Mmu.RewriteIdempotent | src/arch/aarch64/mmu.rs:156-197 | applying the same rewrites to tables that already hold them changes nothing |
| Mmu.AccessibleTwice | src/arch/aarch64/mmu.rs:107-205 | a second call on the same range walks the same descriptors and leaves the tables as the first call left them |
| Mmu.RewrittenGrantsAccess | src/arch/aarch64/mmu.rs:156-197 | a rewritten page grants EL0 read, write and execute; a rewritten block has AP[6] and AF set; untouched descriptors are unchanged |
| Mmu.WalkMarksExtends | src/arch/aarch64/mmu.rs:129-202 | the walk only adds rewrites |
| Mmu.MarksAreVisited | src/arch/aarch64/mmu.rs:129-202 | the walk adds a rewrite only when some address of the range reaches a valid descriptor |
| Mmu.WalkPrefix | src/arch/aarch64/mmu.rs:131-187 | an iteration reads only the indices its result depends on |
| Mmu.SameUnitIndices | src/arch/aarch64/mmu.rs:131-134 | addresses in the same page share all four indices; in the same 2 MB or 1 GB region, the leading ones |
| Mmu.SameVisit | src/arch/aarch64/mmu.rs:138-187 | every address up to the corrected next address finds the same descriptor |
| Mmu.AlignedWalkCovers | src/arch/aarch64/mmu.rs:129-202 | the corrected walk marks the descriptor that every address of the range leads to, a page with the page rewrite |
| Mmu.AlignedRangeAccessible | src/arch/aarch64/mmu.rs:107-205 | after the corrected walk, every address of `[start_addr, start_addr + len)` translates through the same descriptors, and the descriptor that maps it is rewritten: a page to EL0 read-write with AF set and UXN clear, a block with AP[6] and AF set |
| Mmu.AsWrittenSkipsBlock | src/arch/aarch64/mmu.rs:159 | as written, a range from 0x2000_0000 to 0x4000_1000 over two 1 GB blocks rewrites only the first, although 0x4000_0000 lies in the range and is mapped by the second |
| Mmu.AlignedCoversBlock | src/arch/aarch64/mmu.rs:154-161 | the corrected walk rewrites both blocks for that range |
| Multitasking.Restore | src/multitasking.rs:23-31 | the six pops and the `ret` leave RSP 56 above where they started |
| Multitasking.Cpu.Push | src/multitasking.rs:9-14 | `push` lowers RSP by 8 and stores the word there |
| Multitasking.Cpu.Pop | src/multitasking.rs:23-28 | `pop` returns the word at RSP and raises RSP by 8 |
| Multitasking.Cpu.PushRegs | src/multitasking.rs:9-14 | the six pushes store RBX highest down to R15 lowest, 48 bytes below RSP |
| Multitasking.Cpu.PopFrame | src/multitasking.rs:23-31 | the pops restore R15 to RBX and then RIP, as `Restore` reads them |
| Multitasking.Cpu.SwitchContext | src/multitasking.rs:9-31 | the old registers are pushed, the old RSP is stored at `old_sp_ptr`, and the new stack's frame is restored |
| Multitasking.Pushed | src/multitasking.rs:9-14 | the pushed frame holds R15..RBX from `rsp - 48` up; nothing outside it changes |
| Multitasking.SavedHoldsFrame | src/multitasking.rs:9-17 | right after the save, the frame and return address are in place unless `old_sp_ptr` points into them |
| Multitasking.SwitchBack | src/multitasking.rs:9-31 | switching back to a saved RSP restores the same six registers, returns to the caller, and leaves RSP as after the `call`'s return |
| Multitasking.FrameSlots | src/multitasking.rs:60-100 | the eight seeded words lie in `[sp, sp + 64)` |
| Multitasking.InitStack | src/multitasking.rs:49-104 | with each store at the intended slot, the returned `sp` is the aligned top minus 64 and holds, upward, R15 = 0, R14 = 0, R13 = arg0, R12 = entry, RBP = 0, RBX = 0, the trampoline, 0; only those eight words change |
| Multitasking.SeedStores | src/multitasking.rs:60-100 | the eight stores leave exactly that frame and change nothing else |
| Multitasking.SeedInBuffer | src/multitasking.rs:50-53 | the seeded frame is 16-aligned, lies inside the buffer, and ends less than 16 bytes below its top |
| Multitasking.SeedResumes | src/multitasking.rs:95-100 | the first switch to a seeded stack returns into the trampoline with R12 = entry and R13 = arg0, and with RSP + 8 a multiple of 16 |
| Multitasking.AsWrittenStoresOutside | src/multitasking.rs:56 | as written, for a buffer of 94 bytes or more every store lands at or past the buffer's end |
| Multitasking.AsWrittenExample | src/multitasking.rs:56-60 | a 4 KB stack at 0x1000: the R15 word meant for 0x1FC0 is written at 0x2FC0 |
| Shell.Streq | apps/shell/src/main.rs:123-133 | true exactly when the lengths are equal and every byte matches, that is, when the byte strings are equal |
| Shell.KeepFrom | apps/shell/src/main.rs:139-141 | the first loop of `trim` stops at the first non-blank byte, skipping only blanks |
| Shell.KeepTo | apps/shell/src/main.rs:142-144 | the second loop stops just past the last non-blank byte, skipping only blanks |
| Shell.TrimmedShape | apps/shell/src/main.rs:135-147 | `trim` returns a contiguous slice with only blanks around it, empty or starting and ending with a non-blank byte |
| Shell.TrimmedOfKept | apps/shell/src/main.rs:135-147 | a slice with nothing to strip is its own trim |
| Shell.TrimIdempotent | apps/shell/src/main.rs:135-147 | trimming twice is trimming once |
| Shell.Trim | apps/shell/src/main.rs:135-147 | the two index loops return `Trimmed(s)` |
| Shell.Classify | apps/shell/src/main.rs:150-185 | Empty exactly when the line trims to nothing; an Echo's text is what follows "echo "; an Unknown carries the trimmed command |
| Shell.ClassifyRules | apps/shell/src/main.rs:157-185 | the first matching rule wins: exit, help, any "echo " prefix, echo, pid; anything else is unknown |
| Shell.Process | apps/shell/src/main.rs:149-186 | only "exit" ends the shell; "echo " writes the rest of the line and a newline |
| Shell.ProcessIgnoresBlanks | apps/shell/src/main.rs:150-154 | a blank line does nothing, and surrounding blanks never change what a command does |
| Shell.PidAgainstKernel | apps/shell/src/main.rs:174-177 | the kernel's dispatcher answers getpid (39) with -1, so `pid` prints the byte 47 ('/') |
| Shell.LineEnd | apps/shell/src/main.rs:214 | the first line feed or carriage return of the input |
| Shell.Kept | apps/shell/src/main.rs:220-222 | the reader keeps a prefix of the line of at most 255 bytes, all of it when it fits |
| Shell.ReadLine | apps/shell/src/main.rs:198-226 | stores the kept bytes of the line and a 0 after them inside the 256-byte buffer, echoes each kept byte once and then a newline, and consumes the line end |
| Shell.PidDigit | apps/shell/src/main.rs:177 | a pid from 0 to 9 gives its ASCII digit; any pid gives a byte congruent to pid + 48 modulo 256 |

## Left out

- Logging: every `log::` call is dropped. In `apply_relocation` this includes the `get_string` call that only feeds a log line, so its reads of the string table are not modelled.
- `call_init` (src/syscall/dynlink.rs:231-236) and `trampoline` (src/multitasking.rs:106-126) call into code outside the kernel and are not modelled.
- `read_ttbr0` is a parameter (`ttbr0`) of `Mmu.MakeUserAccessible`, and `tlb_invalidate_page` is a no-op.
- The `make_user_accessible` call inside `load_elf` is recorded in an event log (`Elf.Event`); the loader model does not run the page-table walk.
- A failing `load_elf` does not roll back segments already copied. The model keeps that memory, as the code does.
- Elf.LoadElf: integers are unbounded. The wrap-around of `p_offset + p_filesz`, `i * e_phentsize` and `p_vaddr + p_filesz` in 64 bits is not modelled.
- Mmu.MakeUserAccessible: requires that `start_addr + len + 4095` fits in 64 bits, where the source's `+` would panic. Where the next page address of the walk would reach 2^64 (the source's `addr += ...` would panic), the walk specification is None.
- RamFs.RamNode.WriteAt: requires that `offset + buf.len()` fits in 64 bits, where the source's `+` would panic.
- RamFs.RamNode.GetMetadata: requires that a file's length fits in a u64.
- Dynlink: an unmapped read or a panicking `+` (lines 141, 154, 166, 179, 191 and 205) makes `RelocationPatch`/`TableFrom` None. ApplyRelocation and ApplyRelocations require that this does not happen.
- Dynlink.ParseDynamic: requires that a DT_NULL entry exists and that every entry before it is mapped. `d_tag` is compared as a u64 word, which is the same as the source's signed comparison against these non-negative constants.
- Dynlink.GetString: returns the raw bytes. `String::from_utf8_lossy` is not modelled.
- Syscall.SysWrite: the UTF-8 check and the log output are dropped. Only the return value is modelled, and it does not depend on them.
- Syscall.SysExit: the `loop {}` is the outcome `Diverges`.
- Sched: `Arc<Mutex<..>>`, `spin::Mutex`, `RwLock` and the atomic `NEXT_PID` become plain ownership of fields of `Sched.Kernel`. The counter's `usize` wrap-around is not modelled.
- Sched.FileDescriptor: the `inode` is an `Arc<dyn Inode>`; the model keeps only an identity number.
- RamFs: the `BTreeMap` of children is a sequence of entries in strictly ascending name order, kept as the invariant `Valid()`. Names are ordered by character code, which for valid UTF-8 strings is the byte order that `String`'s `Ord` uses.
- Mmu.Desc: a descriptor is split into bits 11:0, the output address bits 47:12 as a page number, and bits 63:48. The output address is not bounded to 36 bits.
- UserStack: the words of the frame and the bytes of the strings are two separate stores, and a word is not split into bytes. Word values are integers and are not reduced to 64 bits.
- Multitasking: memory is word-addressed and the stack buffer is a byte range `[base, base + len)`. The `global_asm!` body is modelled instruction by instruction on `Multitasking.Cpu`.
- Shell: the outer `loop` of `_start`, the prompt, and the retry when `read` returns nothing are not modelled. `ReadLine` takes the bytes that `read` returns, in order. `exit` and `getpid` are modelled by their effect: `Effect.exitCode`, and the pid value as a parameter.
- Shell.PidDigit: `(pid as u8) + b'0'` is modelled as wrapping modulo 256. A debug build would panic on the overflow instead.
- Interrupts, the scheduler policy, the architecture entry code, `src/mm/paging.rs`, the boot sequence and the device drivers are not part of this model.

## Findings

| source | as written | input that shows it | evidently intended | confidence | as-written member | corrected member |
|---|---|---|---|---|---|---|
| src/arch/aarch64/mmu.rs:159 | after an L1 or L2 block the walk advances 1 GB or 2 MB from `addr`, which may be in the middle of the block, so it can step over the next block | `start_addr = 0x2000_0000`, `len = 0x2000_1000` over two 1 GB blocks: the block that maps 0x4000_0000 is never rewritten | advance to the next block boundary, so every page of the range is covered | not executed | Mmu.AsWrittenSkipsBlock | Mmu.AlignedRangeAccessible |
| src/multitasking.rs:56 | `ptr` is the aligned top of the stack, not its start, so `ptr.add(sp - base)` writes above the buffer | a 4 KB stack at 0x1000: the R15 word meant for 0x1FC0 goes to 0x2FC0 | store each word at `sp`, inside the buffer, as the layout comments at lines 86-100 describe | not executed | Multitasking.AsWrittenStoresOutside | Multitasking.InitStack |
| src/syscall/elf.rs:178-204 | the returned `sp` is 16-byte aligned only when argc + envc is odd | `setup_user_stack(0x8000, ["a", "bc"], [])` returns 0x7FB8 | RSP 16-byte aligned at process entry (section 3.4.1 of the System V AMD64 psABI) | not executed | UserStack.AsWrittenMisaligned | UserStack.SetupUserStackPadded |
