# A Dafny model of the embedded operating system

The repository holds a small ARM operating system written from scratch: a kernel, a C library, a
bootloader, an init program and a game engine. This project models the parts whose correctness is
hard to see from the code, and proves what those parts are for. Imperative C stays imperative: tables
and buffers are fields and arrays, loops carry invariants, and every such method is proved equal to a
function of the state before it. The properties are proved about those functions.

| part | files | what is proved |
|---|---|---|
| DEFLATE decoder | Bits, BitReader, Huffman, HuffmanTable, Deflate, Decoding, RoundTrip, Acceptance, Unambiguous, DeflateTables, DeflateErrors, InflateHeader, Inflate | a length vector is accepted exactly when Kraft's inequality holds, and its canonical code is prefix free; decoding inverts encoding for every list of stored, fixed and dynamic blocks with at most 30 distance lengths, and refuses those with 31 or 32; only encodings decode, and a bit string encodes one block list; the tables are those of RFC 1951, on literal streams too; the decoder is total |
| Processes, pipes, descriptors | KernelState, FileCounts, KernelInvariant, KernelSteps, KernelExit, KernelRuns, KernelHistory, KernelFairness, KernelLaws, KernelPipes, KernelCode, PipeRing | over every run: no lost wakeup, process lifetime, exact reference counts, bounded waiting, each death reported once and as it was, pipes deliver what was written; what each call does to every descriptor and process |
| Device tree | Fdt, FdtTree, FdtTreeEdit, FdtBlob, FdtEdit, FdtSet, FdtRead, FdtMeaning, FdtMake, FdtInputs, FdtLaws, FdtCode, FdtReadCode | shifting bytes in the blob is setting one property in the tree, on every tree; when the kernel's reader reads back what the bootloader wrote; every tree has a blob |
| Flow field | FlowField, FlowSearch | following the field is a shortest path, and exactly the unreachable cells have none |
| Supervisor | Supervisor, SupervisorRuns, SupervisorLaws, SupervisorCode | never oversleeps, settles, bounds crash loops and gives up exactly when the window says so; exactly when a service counts as up, is started, stays stopped or is restarted; boot completes exactly without circular dependencies |
| Kernel heap | KHeap, KHeapOps, KHeapLaws, KHeapCode | blocks tile the granted pages, live payloads keep apart and keep their contents; little is wasted and freed memory serves again |
| Path lookup | Lookup, LookupSubst, LookupLaws, LookupCode | following a link is substituting its text; a path resolves exactly along the entries of the tree and exactly within 8 links; down and up again is where one was |
| Exec stack | ExecStack, ExecStackCode, ExecStackAux | the C library reads back the argv and envp that the kernel laid out, and the dynamic linker the program it is to link |
| Files in pages | PagedFile, PagedFileCode | a run of writes and truncations is the byte sequence it spells |
| Frames | Frames, FramesMap, FramesCalls, FramesRuns, FramesExact, FramesLeaks, FramesLaws, FramesBytes, FramesCode | over every run: one owner per frame, exact use count, user pages in user space, and exactly which calls lose a frame; when brk, mmap2 and munmap succeed and what they leave, pages and bytes |

Where a property does not hold of the code as it stands, the model keeps the code, shows an input on
which it fails and gives the exact condition:

| property | holds if and only if | fails on |
|---|---|---|
| the kernel reads back the command line that the bootloader set | `FdtMeaning.ReadsBack`, `FdtMeaning.BlobReadsBack`, `FdtReadCode.BootRoundTrip` | `FdtInputs.CornerOnBlob`, `FdtInputs.ShadowedOnBlob` |
| the edit sets /chosen/bootargs and nothing else | `FdtTree.WalkFinds`, `FdtMeaning.EditMeansExactly` | `FdtInputs.HiddenBootargs`, `FdtInputs.DoubleChosen` |
| F_SETFL keeps the pipe counts | `KernelPipes.SetFlagsExact` | `KernelPipes.SetFlagsCanBreakCounts` |
| a header of the format is accepted | `RoundTrip.HeaderInverts` | `Acceptance.WideHeaderRefused` |
| a stream of the format is decoded | `Unambiguous.FormatDecodes`, `Inflate.InflateEncoded` | `Acceptance.WideStreamRefused` |
| an accepted header is one of the format | `Acceptance.HeaderInFormat` | `Acceptance.CutHeaderAccepted` |
| an accepted stream is one of the format | `Unambiguous.InFormatExactly` | `Unambiguous.CutStreamAccepted`, `Unambiguous.LongStreamAccepted` |
| deaths within a window make the supervisor give up | `SupervisorRuns.GivesUpExactly` | `SupervisorRuns.TenInNineSeconds` |
| restarting a service that runs brings it back | `SupervisorLaws.RestartExactly` | `SupervisorLaws.OneshotNotRestarted` |
| kmalloc keeps the heap in order | `KHeapOps.KmallocKeepsExactly` | `KHeapOps.WrappedBlock` |
| kmalloc's block has the room asked for | `KHeapOps.KmallocGives` | `KHeapOps.NothingServed` |
| a link's text can stand in its place | `LookupSubst.TextFitsExactly` | `LookupSubst.EmptyTargetIsNotText` |
| the page count covers the file | `PagedFile.PagesCover`, `PagedFileCode.File.Write`, `PagedFileCode.File.Truncate` | `PagedFile.NoPagesPastEnd` |
| a file cut and extended again reads zeros | `PagedFile.CutAndExtended`, `PagedFileCode.File.CutAndExtend` | `PagedFileCode.StaleByteShows` |
| a failed brk changes no memory | `FramesCalls.GrowRestores`, `FramesExact.BrkExact` | `FramesExact.BrkLosesPage` |
| every used frame has an owner | `FramesLeaks.DoLeaks`, `FramesLeaks.LeaksOverRuns` | `FramesLeaks.BrkLoses`, `FramesLeaks.GrowFileLoses` |
| munmap's pages cover its range | `FramesExact.MunmapCovers` | `FramesExact.MunmapMisses` |
| munmap keeps mmap_top in user space | `FramesExact.MunmapKeepsProc` | `FramesExact.MunmapThenMmap` |

Code and documentation disagree in these places, and the model follows the code:

- bootloader/fdt.c:139-143 says an in-place value reads as a C string; in the same-padding corner it
  loses its terminator.
- init/init.c:46 says more than MAX_FAILS deaths within a window give up; windows are anchored at the
  death that opens them, so deaths on the two sides of an opening are counted apart
  (`SupervisorRuns.TenInNineSeconds`). The bound that holds is `SupervisorRuns.CrashLoopBound`.
- init/init.c:468 says that a restarted service that runs is respawned when it exits; a oneshot is not
  (`SupervisorLaws.RestartExactly`).
- kernel/lib/inflate.c:176-187 clips a code-length run that goes past the last length, where RFC 1951
  (section 3.2.7) has no such run. `Acceptance` says exactly which headers are affected.
- kernel/lib/inflate.c:160 refuses a header with 31 or 32 distance code lengths; RFC 1951 (section 3.2.7)
  has 1 to 32, though the symbols 30 and 31 never occur in the data. `RoundTrip.HeaderInverts` is the exact
  condition.
- kernel/lib/inflate.c:93-96 gives length symbol 284 five extra bits up to 258; the table of RFC 1951
  (section 3.2.5) ends it at 257 and gives 258 a symbol of its own.
- bootloader/fdt.c:205 assumes that /chosen has no subnodes. That is more than the edit of an existing
  property needs, since it may stand before them, and less than the insertion needs, since a second /chosen
  misleads it. `FdtTree.Editable` is the exact condition.

## How the parts fit together

**DEFLATE.** `Deflate` is the pure side: tokens, the recursive LZ77 expansion, the block encoder of RFC
1951. `Decoding` decodes a flat bit sequence. `Inflate.InflateRaw`, the C code over the bit reader and
the output buffer, is proved to answer what `Decoding.DecodeStream` answers on every byte string, and
`RoundTrip.InflateInvertsEncoding` says what that is on encoded input. `Acceptance.AcceptsExactly` is the
converse: nothing else is accepted. `Deflate.Formed` blocks are those of the format, with two additions that
the decoder takes: the last code-length run of a header may go past the last length, and length symbol 284
may stand for 258. `Deflate.ValidBlocks` leaves both out and is the format; codes that do not use up the
code space count as part of it. `Deflate.Narrow` is what the decoder asks on top: at most 30 distance
lengths.

**Processes.** `KernelState` has the tables as one value and a function per kernel operation; `KernelCode`
has the C loops and branches over fields, each proved to leave the value its function computes. A run
(`KernelRuns`) is any sequence of enabled operations from boot: fork, exit, fault, wait, preempt, the
descriptor calls and pipe reads and writes. A read that would block is the sleep step described at
kernel/include/fs_syscall.h:18-22; the call that is issued again is a new step. Runs contain the F_SETFL
calls that keep the access mode; `SetFlagsExact` says why. The error paths of allocation are inputs of
the operations.

**Device tree.** `FdtTree.Doc` is the tree, `FdtTree.FlattenDoc` its token list; `FdtBlob.Represents`
ties a blob to a tree through the header, the structure block and the strings block. `FdtSet.SetBlob` is the whole call on a
buffer with all its return codes; `FdtCode.SetBootargs` is the C code. `FdtTree.SpotOf` says where the walk
edits any tree, `FdtTree.Wanted` where /chosen/bootargs is, and `FdtTree.Editable` when the two agree.
`FdtRead` has the kernel's reader, kfdt_getprop, as a walk over the tokens and what it finds in the tree;
`FdtReadCode.Getprop` is its C code. `FdtMake.Make` lays out a blob for a tree.

**Supervisor.** The clock, the existing ready paths and what fork returns are inputs of each pass. Epoll,
sockets and signals are the order of events. `SupervisorLaws` says what became of a service in terms of
what happened: its exits, its deaths, the passes since it was started and the commands.

**Lookup.** `LookupLaws.Tree` are the trees whose parent fields agree with their entries, and
`LookupLaws.BuiltIsTree` says that the kernel builds no others.

**Heap, files, frames.** What the page allocator grants, whether a table can be reallocated and how many
frames are left are inputs. A file is a `PagedFile.Store`, all bytes of its pages and a size; what a
reader sees is the part in front of the size. vm_map_page, vm_walk and vm_unmap_page are a partial map
from addresses to frames; vm_map_page refuses addresses outside user space (kernel/arch/arm/vm.c:120-123)
and those whose second-level table it cannot make, an input. `FramesRuns` has brk, mmap2, munmap and file
growth as functions of the memory and the process, all sums on 32 bits; `FramesCode` has the loops, and
says what a call makes of the bytes of every page that has an owner. `FramesLaws` says which pages those
are, by address.

## Model

| member | source | states |
|---|---|---|
| BitReader.Reader.Bits | kernel/lib/inflate.c:29-40 | reading n bits yields the next n bits of the flat sequence, least significant first, and drops exactly them; too few left sets err and returns 0 |
| BitReader.Reader.AlignToByte | kernel/lib/inflate.c:208-209 | the stored-block reset drops exactly the rest of the current byte |
| BitReader.Reader.HeldIsPartOfByte | kernel/lib/inflate.c:29-40 | behind the rest of the current byte come exactly the bytes not yet loaded: at most 7 bits are held between calls |
| Huffman.AcceptedIffKraft | kernel/lib/inflate.c:53-61 | the length-by-length test accepts a vector exactly when Kraft's inequality holds |
| Huffman.PrefixFree | kernel/lib/inflate.c:49-73 | in an accepted vector no two canonical codes start the same stream |
| Huffman.MatchIs | kernel/lib/inflate.c:76-90 | a stream that begins with a symbol's canonical code has that symbol as its only match |
| HuffmanTable.HuffBuild | kernel/lib/inflate.c:49-73 | refuses exactly the over-subscribed vectors, returns the unused share of the code space, and leaves the table of the canonical code |
| HuffmanTable.SortSymbols | kernel/lib/inflate.c:65-71 | the symbol array lists the coded symbols by length and then by value |
| HuffmanTable.HuffDecode | kernel/lib/inflate.c:76-90 | on any stream returns the symbol whose canonical code it begins with and consumes exactly that code; with no such symbol it fails |
| Deflate.CopyMatchIsPeriodic | kernel/lib/inflate.c:128-133 | a copy whose distance is smaller than its length repeats with that period |
| Deflate.CopyToken | kernel/lib/inflate.c:93-100 | the base and extra-bit tables give every length from 3 to 258 and every distance up to 32768 a token |
| Inflate.CopyBack | kernel/lib/inflate.c:128-133 | the byte-by-byte copy in the buffer is the recursive LZ77 copy, and nothing behind it changes |
| Inflate.LengthAndDistance | kernel/lib/inflate.c:120-124 | after a length symbol, its extra bits, the distance symbol and its extra bits give the pair the tables say; a bad distance symbol or a reader in error is refused |
| Inflate.InflateBlock | kernel/lib/inflate.c:104-135 | the block loop leaves in the buffer what decoding the flat bits gives, and returns its error otherwise |
| Inflate.InflateStored | kernel/lib/inflate.c:208-217 | a stored block copies its bytes after checking the complement and the bounds |
| InflateHeader.BuildFixed | kernel/lib/inflate.c:138-149 | the two tables are those of the fixed code lengths, whose codes DeflateTables gives |
| DeflateTables.FixedLitCodes | kernel/lib/inflate.c:138-149 | the canonical codes of the fixed literal lengths are those of section 3.2.6 of RFC 1951: from 00110000, 110010000, 0000000 and 11000000 on |
| DeflateTables.FixedDistCodes | kernel/lib/inflate.c:138-149 | the fixed distance code of a symbol is its value in five bits |
| DeflateTables.LengthTable | kernel/lib/inflate.c:93-96 | bases and extra bits of the length symbols are those of section 3.2.5 in closed form: symbols in groups of four, each group twice as wide, 3 to 258 |
| DeflateTables.DistanceTable | kernel/lib/inflate.c:97-100 | those of the distance symbols too: pairs, each pair twice as wide, 1 to 32768 |
| DeflateTables.OrderTable | kernel/lib/inflate.c:152-165 | the code-length order is 16, 17, 18, 0 and then outwards from 8 |
| DeflateTables.OneADecodes | kernel/lib/inflate.c:197-234 | the bytes 4b 04 00, a fixed block, decode to "a" |
| DeflateTables.ManyADecodes | kernel/lib/inflate.c:104-135 | the bytes 4b 44 06 00, with a copy at distance 1, decode to thirteen "a" |
| DeflateTables.TwoADecodes | kernel/lib/inflate.c:155-194 | thirteen literal bytes of a dynamic block decode to "aa" |
| DeflateTables.StoredDecodes | kernel/lib/inflate.c:207-217 | for any data: 01, the length and its complement low byte first, and the data decode to the data |
| DeflateErrors.StoredCodes | kernel/lib/inflate.c:207-217 | a stored block fails with -11 without four length bytes, -12 if and only if then some bit of the second pair equals that of the first, -13 without all its data, -14 without room |
| DeflateErrors.TypeCodes | kernel/lib/inflate.c:203-230 | fewer than three bits are -10, block type 3 is -16 |
| DeflateErrors.TokenCodes | kernel/lib/inflate.c:112-126 | in front of whatever follows, a literal without room is -2, a copy from before the start of the output -5, and else one without room -6 |
| DeflateErrors.BadLength | kernel/lib/inflate.c:118-119 | the length symbols 286 and 287 are -3 |
| DeflateErrors.BadDistance | kernel/lib/inflate.c:122-123 | a length that no distance symbol below 30 follows is -4 |
| DeflateErrors.NoSymbol | kernel/lib/inflate.c:108-109 | bits that begin with no code are -1 |
| DeflateErrors.StreamRoom | kernel/lib/inflate.c:197-234 | with a smaller buffer the answer is the same, or -2, -6 or -14 and the larger output would not fit |
| DeflateErrors.TooSmall | kernel/lib/inflate.c:197-234 | an encoded stream that does not fit the buffer is refused with -2, -6 or -14 |
| InflateHeader.BuildDynamic | kernel/lib/inflate.c:155-194 | succeeds exactly on the headers whose bits encode acceptable code lengths, and the two tables are those of these lengths |
| InflateHeader.ReadLengths | kernel/lib/inflate.c:168-188 | the run-length loop reads the code lengths, repeats included |
| Inflate.InflateRaw | kernel/lib/inflate.c:197-234 | on every byte string: terminates, answers what the flat bit sequence decodes to, writes nothing at or above dstcap, and after a non-negative result the reader is not in error |
| RoundTrip.BlockInvertsEncoding | kernel/lib/inflate.c:104-135 | decoding the encoding of any token list under any accepted code yields its LZ77 expansion and consumes exactly the encoding |
| RoundTrip.AcceptedBlockIsEncoding | kernel/lib/inflate.c:104-135 | whatever is accepted is the encoding of some token list with that expansion |
| RoundTrip.HeaderInverts | kernel/lib/inflate.c:155-194 | a dynamic header of the format decodes to the code lengths it encodes if it has at most 30 distance lengths, and is refused otherwise |
| RoundTrip.FixedCodesAccepted | kernel/lib/inflate.c:138-149 | the fixed code lengths pass the length test |
| RoundTrip.InflateInvertsEncoding | kernel/lib/inflate.c:197-234 | for every list of stored, fixed and dynamic blocks, and whatever follows, decoding yields exactly the expansion if no header has more than 30 distance lengths, and -15 otherwise |
| RoundTrip.InflateInvertsPacking | kernel/lib/inflate.c:197-234 | the same for the encoding packed into bytes |
| Acceptance.RunIsOps | kernel/lib/inflate.c:168-188 | whatever the run-length loop accepts is spelled by operations of the format, only the last of which may be cut |
| Acceptance.AcceptedHeaderIsEncoding | kernel/lib/inflate.c:155-194 | whatever build_dynamic accepts is the encoding of a header, of the format if and only if its last run does not overshoot |
| Acceptance.HeaderUnique | kernel/lib/inflate.c:155-194 | a header, with up to 32 distance lengths, is determined by its bits |
| Acceptance.HeaderInFormat | kernel/lib/inflate.c:176-187 | so the bits begin with a header of the format if and only if the accepted one does not overshoot |
| Acceptance.CutHeaderAccepted | kernel/lib/inflate.c:176-187 | a header whose last run has 137 zeros too many is accepted, though no header of the format has its bits |
| Acceptance.WideHeaderRefused | kernel/lib/inflate.c:160 | a header of the format with 31 distance lengths is refused, whatever follows |
| Acceptance.WideStreamRefused | kernel/lib/inflate.c:197-234 | a stream of the format with that header fails with -15 |
| Acceptance.AcceptsExactly | kernel/lib/inflate.c:197-234 | inflate_raw succeeds exactly on the byte strings that begin with the encoding of readable blocks whose expansion fits |
| Acceptance.StreamIsEncoded | kernel/lib/inflate.c:197-234 | and what it accepts is that encoding, its output that expansion |
| Unambiguous.TokensUnique | kernel/lib/inflate.c:104-135 | under any two accepted codes a bit string encodes at most one token list |
| Unambiguous.BlocksUnique | kernel/lib/inflate.c:197-234 | a bit string encodes at most one list of blocks, up to the padding of stored blocks |
| Unambiguous.InFormatExactly | kernel/lib/inflate.c:197-234 | bits that begin with encoded blocks begin with a stream of the format if and only if no header overshoots and no 258 is spelled by symbol 284 |
| Unambiguous.FormatDecodes | kernel/lib/inflate.c:197-234 | a stream of the format that fits is decoded if and only if no header has more than 30 distance lengths; otherwise -15 |
| Unambiguous.CutStreamAccepted | kernel/lib/inflate.c:176-187 | a stream with an overshooting header is decoded, though it is none of the format |
| Unambiguous.LongStreamAccepted | kernel/lib/inflate.c:93-96 | and so is a stream that spells 258 by symbol 284 |
| Inflate.InflateEncoded | kernel/lib/inflate.c:197-234 | inflate_raw on encoded blocks: the expansion in the buffer, or -15 |
| KernelCode.Kernel.PickNextProc | kernel/kernel/proc.c:93-105 | the first runnable slot after the current one, cyclically, else the current one if it may run |
| KernelCode.Kernel.SwitchToProc | kernel/kernel/proc.c:438-454 | the chosen process becomes current and running |
| KernelCode.Kernel.ProcPreempt | kernel/kernel/proc.c:472-487 | the current process becomes runnable and the next one runs, or nothing changes |
| KernelCode.Kernel.DoFork | kernel/kernel/proc.c:500-535 | a free slot becomes a runnable child with a new pid and the parent's descriptors, each reference counted; without a free slot nothing changes, and without memory only a pid is used up and the free slot's fields are rewritten |
| KernelCode.Kernel.ProcSleep | kernel/kernel/proc.c:763-773 | the current process blocks on the channel and another one runs, or it does not sleep |
| KernelCode.Kernel.ProcWakeup | kernel/kernel/proc.c:775-784 | exactly the processes blocked on the channel become runnable |
| KernelCode.Kernel.ReparentChildren | kernel/kernel/proc.c:792-842 | the children of the dying process become init's |
| KernelCode.Kernel.ReapCurrentAndSwitch | kernel/kernel/proc.c:792-842 | the dying process closes everything, becomes a zombie, its parent is woken, and another process runs or the system halts |
| KernelCode.Kernel.BuryCurrent | kernel/kernel/proc.c:792-830 | the children are given to init and the parent is woken |
| KernelCode.Kernel.ProcWait | kernel/kernel/proc.c:932-963 | reaps the first zombie child and stores the status that tells its exit code or its signal; sleeps if a child lives, else fails |
| KernelCode.Kernel.PipeOpenAccount | kernel/fs/file.c:27-37 | a description's access mode moves the pipe's end counts; the last writer's close wakes the readers |
| KernelCode.Kernel.FileOpenInode | kernel/fs/file.c:39-51 | a new description with one reference, counted at its pipe ends |
| KernelCode.Kernel.FileDup | kernel/fs/file.c:53-58 | one reference more |
| KernelCode.Kernel.FileClose | kernel/fs/file.c:60-68 | one reference less; the last one gives up the pipe ends and frees the description |
| KernelCode.Kernel.FdAllocFrom | kernel/fs/file.c:76-87 | the lowest free descriptor from a minimum on |
| KernelCode.Kernel.FdCloseAt | kernel/fs/file.c:106-113 | the descriptor is cleared and its reference given up |
| KernelCode.Kernel.FdTableCopy | kernel/fs/file.c:115-122 | every descriptor the child shares adds one reference |
| KernelCode.Kernel.FdTableCloseAll | kernel/fs/file.c:124-128 | every descriptor is closed |
| KernelCode.Kernel.ReadWouldBlock | kernel/fs/fs_syscall.c:114-129 | names the inode to wait on exactly when the pipe is empty and has a writer |
| KernelCode.Kernel.SysRead | kernel/fs/fs_syscall.c:131-161 | a pipe read takes the oldest bytes, or sleeps as fs_syscall.h describes |
| KernelCode.Kernel.SysWrite | kernel/fs/fs_syscall.c:163-189 | a pipe write appends what fits and wakes the readers, or fails without a reader |
| KernelCode.Kernel.SysClose | kernel/fs/fs_syscall.c:109-112 | closes one descriptor or fails |
| KernelCode.Kernel.SysDup | kernel/fs/fs_syscall.c:271-279 | a second descriptor for the same description, F_DUPFD's minimum included; a full table gives the reference back |
| KernelCode.Kernel.SysDup2 | kernel/fs/fs_syscall.c:306-316 | the target descriptor is closed first and then shares the description; Dup2Law says what every descriptor leads to |
| KernelCode.Kernel.SysOpen | kernel/fs/fs_syscall.c:99-106 | a description and a descriptor, or neither |
| KernelCode.Kernel.SysPipe2 | kernel/fs/fs_syscall.c:284-304 | a pipe with one reader and one writer on the two descriptors it stores, and every partial failure undone |
| KernelCode.Kernel.SysSetFlags | kernel/fs/fs_syscall.c:318-336 | F_SETFL replaces all flags of the description |
| KernelLaws.CloseLaw | kernel/fs/fs_syscall.c:109-112 | afterwards the descriptor leads nowhere and every other one, of every process, where it led; -9 for one that led nowhere, and no change |
| KernelLaws.DupLaw | kernel/fs/fs_syscall.c:271-279 | the lowest free descriptor from the minimum on leads where the given one does, every other where it led; -24 only when none is free |
| KernelLaws.Dup2Law | kernel/fs/fs_syscall.c:306-316 | the new descriptor leads where the old one does, every other where it led; -9 for a bad one, and no change |
| KernelLaws.OpenLaw | kernel/fs/fs_syscall.c:99-106 | the lowest free descriptor leads to a fresh description with one reference; fails if and only if there is no memory or no free descriptor |
| KernelLaws.Pipe2Law | kernel/fs/fs_syscall.c:284-304 | the two lowest free descriptors lead to the read and the write end of an empty pipe; succeeds if and only if two are free |
| KernelLaws.Pipe2Fails | kernel/fs/fs_syscall.c:284-304 | a pipe2 that fails leaves every description and descriptor as it was: -12 without memory, -24 without two free descriptors |
| KernelLaws.SetFlagsLaw | kernel/fs/fs_syscall.c:318-336 | the description's flags are the given ones; nothing else changes |
| KernelLaws.ReadLaw | kernel/fs/fs_syscall.c:114-161 | a pipe read blocks on that pipe if and only if it is empty, has a writer, is not to return at once and another process can run; else it takes the oldest bytes and nothing else changes |
| KernelLaws.WriteLaw | kernel/fs/fs_syscall.c:163-189 | a pipe write appends as many bytes as fit and leaves nobody asleep on the pipe; -32 without a reader |
| KernelLaws.BadFdLaw | kernel/fs/fs_syscall.c:131-189 | a read or write through a descriptor that leads nowhere is -9 and changes nothing |
| KernelLaws.PipeRoundTrip | kernel/fs/fs_syscall.c:131-189 | what is written into an empty pipe is read from its other end |
| KernelLaws.ForkLaw | kernel/kernel/proc.c:500-535 | fork succeeds if and only if a slot is free and there is memory; a runnable child of the caller with the next pid and descriptors that lead where the caller's do; no other process changes |
| KernelLaws.PreemptLaw | kernel/kernel/proc.c:472-487 | another runnable process runs and the caller is runnable, if there is one; else nothing changes |
| KernelLaws.DieLaw | kernel/kernel/proc.c:792-842 | what a death makes of every process: the dead one a zombie with its code, its signal and no descriptors; its children init's; its parent no longer asleep in wait; everybody else's descriptors and family as they were |
| KernelLaws.StatusTells | libc/include/sys/wait.h:16-19 | the status of an exit gives its code through WEXITSTATUS, that of a death by signal the signal through WTERMSIG, and they are told apart |
| KernelLaws.WaitLaw | kernel/kernel/proc.c:932-963 | wait reports a zombie child, its pid and a status that tells how it died, if and only if there is one; blocks if there are children and another process can run; else -10 |
| PipeRing.Ring.Read | kernel/fs/ramfs.c:300-313 | the ring gives its oldest bytes in order, as the pipe of the process model does |
| PipeRing.Ring.Write | kernel/fs/ramfs.c:315-327 | the ring appends as many bytes as fit, or refuses without readers, as the pipe of the process model does |
| KernelRuns.StepKeepsInv | kernel/kernel/proc.c:500-963 | every enabled operation, error paths included, keeps the whole invariant |
| KernelRuns.RunInv | kernel/kernel/proc.c:500-963 | so every state of every run satisfies it |
| KernelRuns.NoLostWakeup | kernel/kernel/proc.c:763-842 | a blocked process waits for a living child while none is a zombie, or on an empty pipe to which some living process holds a write end |
| KernelRuns.OpenWriterIsHeld | kernel/fs/file.c:27-68 | a positive writer count means a living process holds a write end |
| KernelRuns.Lifetime | kernel/kernel/proc.c:792-963 | a used slot's parent is used and only init may be a dead parent; pids are init's and distinct; the dead hold no files |
| KernelRuns.ReusedSlotHasNoChildren | kernel/kernel/proc.c:500-535 | a slot that fork reuses is nobody's parent |
| KernelRuns.CountsAreExact | kernel/fs/file.c:27-128 | refcnt is the number of descriptors across all processes, no descriptor dangles, and the end counts are the numbers of live descriptions of each mode |
| KernelHistory.ReapedAtMostOnce | kernel/kernel/proc.c:932-963 | over a run no pid is reported by two waits |
| KernelHistory.ReapedAsItDied | kernel/kernel/proc.c:932-963 | the status a wait reports is made of the code and the signal the process died with earlier in the run |
| KernelLaws.ReapedTells | kernel/kernel/proc.c:792-963 | over a run, WEXITSTATUS or WTERMSIG of a reported status give the code of the exit call or the signal of the fault by which that pid died earlier |
| KernelHistory.DiesAtMostOnce | kernel/kernel/proc.c:792-842 | over a run no pid dies twice |
| KernelFairness.PickNearest | kernel/kernel/proc.c:93-105 | the pick is the runnable slot at the least cyclic distance |
| KernelFairness.EverySwitchCounts | kernel/kernel/proc.c:438-487 | every context switch that passes a runnable process over brings it closer |
| KernelFairness.BoundedWaiting | kernel/kernel/proc.c:93-105 | a process that stays runnable is passed over by at most NPROC - 2 switches |
| KernelFairness.OneRunner | kernel/kernel/proc.c:438-487 | only the current process is running |
| KernelPipes.PipesAreFifo | kernel/fs/ramfs.c:300-327 | over any run, what was delivered followed by what is held is what was written, in order |
| KernelPipes.SetFlagsExact | kernel/fs/fs_syscall.c:333 | after F_SETFL the end counts are exact if and only if the new mode counts against the same ends |
| KernelPipes.SetFlagsCanBreakCounts | kernel/fs/fs_syscall.c:333 | a pipe whose write end is set to read-only leaves one writer counted that nobody is |
| FdtCode.Load32 | bootloader/fdt.c:52-55 | reads the big-endian word |
| FdtCode.Store32 | bootloader/fdt.c:56-59 | writes the big-endian word and nothing else |
| Fdt.Put32Reads | bootloader/fdt.c:52-61 | a stored word reads back, and words beside it read as before |
| FdtCode.StrEqAt | bootloader/fdt.c:63-66 | true exactly when the C string there is the name |
| FdtCode.StrLenAt | bootloader/fdt.c:67 | the length of the C string there |
| FdtCode.ShiftUp | bootloader/fdt.c:71-74 | the overlapping move keeps every moved byte and every byte outside |
| FdtCode.StringsFind | bootloader/fdt.c:88-99 | the first entry that is the name, or -1 |
| FdtSet.FindStringNone | bootloader/fdt.c:88-99 | after a failed search no entry of the block is the name |
| FdtCode.StringsAppend | bootloader/fdt.c:104-115 | the name behind the strings block, with both header words corrected |
| FdtSet.AppendBlocks | bootloader/fdt.c:104-115 | afterwards the strings block is the old one and the name; the structure block is unchanged |
| FdtCode.OpenGap | bootloader/fdt.c:130-133 | the gap and the three header words, whichever is done first |
| FdtBlob.SpliceBlocks | bootloader/fdt.c:120-180 | after a splice the header agrees with the blocks: the structure block has the new bytes in place of the old, the strings block is unchanged |
| FdtCode.ReplaceBootargs | bootloader/fdt.c:120-147 | the buffer afterwards, grown or in place |
| FdtEdit.GrowOk | bootloader/fdt.c:126-137 | growing replaces that property's value by the NUL-terminated string, every other token unchanged |
| FdtEdit.FitOk | bootloader/fdt.c:138-145 | fitting replaces the value by as much of the string as the old length holds, every other token unchanged |
| FdtCode.InsertBootargs | bootloader/fdt.c:151-180 | the buffer afterwards, with the name added if it was missing |
| FdtSet.InsertOk | bootloader/fdt.c:151-180 | exactly one token is inserted, named bootargs, with room for the name only if it was missing |
| FdtCode.SetBootargs | bootloader/fdt.c:182-253 | the returned code and the buffer for every walkable blob: -1, -5, -3, -4 or the edit |
| FdtTree.WalkFinds | bootloader/fdt.c:206-252 | the token walk finds the place of /chosen/bootargs, or the slot for it, or that /chosen is missing, if and only if the property is not behind a subnode or, when it is missing, there is no second /chosen |
| FdtTree.WalkGoes | bootloader/fdt.c:206-252 | on every tree: the walk goes to the first /chosen with bootargs in front of all subnodes, else to the front of the last /chosen |
| FdtTreeEdit.EditReplaces | bootloader/fdt.c:232-238 | replacing the token of a property is setting it in the tree |
| FdtTreeEdit.EditInserts | bootloader/fdt.c:247-249 | inserting a token in front of a node's contents is adding the property first in the tree |
| FdtTreeEdit.DocUnique | bootloader/fdt.c:17-23 | a token list flattens at most one tree, so parsing is unambiguous |
| FdtMeaning.EditMeans | bootloader/fdt.c:182-253 | for every blob of every tree: without /chosen -4 and no change; else 0, and the new blob is the blob of the tree with only the property at the walk's place changed |
| FdtMeaning.WalkedExactly | bootloader/fdt.c:182-253 | that tree is the one with only /chosen/bootargs set if and only if the walk sees the place, or both places hold the value already |
| FdtMeaning.EditMeansExactly | bootloader/fdt.c:182-253 | the same of blobs |
| FdtMeaning.ReadsBack | bootloader/fdt.c:120-147 | the kernel reads the command line back as a C string if and only if the old value was not in the same-padding corner and no bootargs in front shadows the edited one (shadowed, if that one says the same) |
| FdtMeaning.BlobReadsBack | bootloader/fdt.c:182-253 | the same of the edited blob and kfdt_getprop on it |
| FdtMeaning.KernelReadsWalked | kernel/drivers/of/kfdt.c:99-176 | after the edit the kernel reads the value left by it, or what it read before when that is shadowed |
| FdtRead.GetFinds | kernel/drivers/of/kfdt.c:99-176 | on every tree, path and name, kfdt_getprop returns the first such property in document order, unit addresses ignored, or none |
| FdtReadCode.NodeMatchesAt | kernel/drivers/of/kfdt.c:79-88 | the node name is the component, with or without a unit address |
| FdtReadCode.Getprop | kernel/drivers/of/kfdt.c:99-176 | the position and length of the value of the token that the walk finds, or 0 |
| FdtReadCode.BootRoundTrip | kernel/drivers/of/kfdt.c:218-223 | fdt_set_bootargs and then kfdt_getprop on one buffer: the command line comes back if and only if neither shadow nor corner |
| FdtMake.MakeRepresents | bootloader/fdt.c:17-23 | every tree with NUL-free names and a size below 2^32 can be read back from the blob laid out for it |
| FdtLaws.SampleBlob | bootloader/fdt.c:17-50 | 97 literal bytes, laid out as the Devicetree Specification has it, are the blob of the tree whose only property is /chosen/bootargs |
| FdtLaws.NamesSpelt | bootloader/fdt.c:172-229 | the names looked for are "chosen" and "bootargs", and the entry added is "bootargs" with its NUL |
| FdtLaws.Refusals | bootloader/fdt.c:182-245 | -1 if and only if the first bytes are not d0 0d fe ed, -5 if and only if then the strings are not last, -3 if and only if then a bad token comes before any bootargs; none changes a byte |
| FdtLaws.NewValueIs | bootloader/fdt.c:120-147 | within the old padding the value keeps its length and holds the string and zeros; else it is the string and one NUL |
| FdtLaws.MatchesBase | kernel/drivers/of/kfdt.c:79-88 | a component matches a node if and only if it is the node's name up to an "@" |
| FdtLaws.PropHere | kernel/drivers/of/kfdt.c:99-176 | at the end of a path the reader gives the first property of that name |
| FdtLaws.PropBelow | kernel/drivers/of/kfdt.c:99-176 | and below it what the one node that matches the next component has, or nothing |
| FdtEdit.NewValueIsCString | bootloader/fdt.c:138-145 | the stored value begins with the terminated command line exactly outside that corner |
| FdtMeaning.CornerLosesTheTerminator | bootloader/fdt.c:138-145 | a one-byte value overwritten by a two-byte string is left without a terminator |
| FdtInputs.CornerOnBlob | bootloader/fdt.c:182-253 | on a blob whose bootargs is "x", setting "ab" succeeds and the kernel reads "a" without a terminator |
| FdtInputs.HiddenBootargs | bootloader/fdt.c:202-252 | with bootargs behind a subnode, setting "a" succeeds and leaves two bootargs |
| FdtInputs.DoubleChosen | bootloader/fdt.c:206-252 | with two /chosen, setting "a" puts it into the second |
| FdtInputs.ShadowedOnBlob | kernel/drivers/of/kfdt.c:77-88 | with a node chosen@ in front, the kernel reads its bootargs and not the one set |
| FdtMeaning.EditTwice | bootloader/fdt.c:182-253 | on every tree a second call with the same string needs no room and leaves the blob identical |
| FlowSearch.EngFlowField | engine/runtime/scene.c:508-533 | for every grid the field is a flow field and the open goal points to itself; with a bad goal, a wall on it or no memory every cell holds -1 |
| FlowField.NearIsStep | engine/runtime/scene.c:520-526 | two cells are neighbours if and only if their columns and rows differ by one in all |
| FlowField.PathIsLong | engine/runtime/scene.c:517-531 | every path to the goal is at least as long as the cell's distance |
| FlowField.TrailArrives | engine/runtime/scene.c:517-531 | following next takes exactly that many open steps |
| FlowField.CertificateIsField | engine/runtime/scene.c:508-533 | so following next is a shortest path, and -1 marks exactly the cells without one |
| FlowSearch.Added | engine/runtime/scene.c:523-530 | marking and queueing a neighbour keeps the queue ordered by distance and within one step |
| FlowSearch.Finished | engine/runtime/scene.c:521-531 | when the queue is used up every neighbour of a seen cell has been seen |
| FlowSearch.QueueFits | engine/runtime/scene.c:515-529 | the queue of n cells is never overrun |
| SupervisorCode.Init.IsDepUp | init/init.c:271-275 | up means UP for a daemon and DONE for a oneshot; an unknown name is up |
| SupervisorCode.Init.AreDepsReady | init/init.c:276-279 | all dependencies are up |
| SupervisorCode.Init.Reconcile | init/init.c:330-351 | one pass, service after service, is the pass over the table before it; the result is the weight lost and is 0 exactly when nothing changed |
| SupervisorCode.SameDeps | init/init.c:330-338 | services started earlier in the pass do not change what is up |
| Supervisor.PassWeighs | init/init.c:330-351 | a pass that changes the table makes it lighter |
| SupervisorCode.Init.Settle | init/init.c:601-603 | the settle loop ends, after at most two changes per service, in a table that a pass at the last time leaves alone |
| SupervisorCode.Init.NextDelayMs | init/init.c:355-377 | the earliest deadline, polled, capped, or -1 |
| Supervisor.NeverOversleeps | init/init.c:330-377 | after settling, a pass at any time before the delay is over changes nothing, unless a ready path appears |
| Supervisor.WakesForWork | init/init.c:355-377 | and at the end of an uncapped delay with no poll pending, a pass starts a service |
| SupervisorCode.Init.Reap | init/init.c:510-517 | the exit of a pid advances its service only; OneshotOnce, GivesUpExactly and StoppedOnExit say to what |
| SupervisorCode.Init.HandleCommand | init/init.c:458-469 | start, stop and restart on the named service; StopStays, StartBringsBack and RestartExactly say what follows |
| SupervisorRuns.PidsFollowStates | init/init.c:284-351 | over every run, commands included, a service has a pid exactly while RUNNING or UP |
| SupervisorRuns.CrashLoopBound | init/init.c:305-325 | without commands, the deaths of a daemon not given up on are a backoff apart, and any 11 in a row span at least FAIL_WINDOW_MS and five backoffs |
| SupervisorRuns.GivesUpExactly | init/init.c:305-325 | without commands, a death makes the supervisor give up if and only if it is at least the (MAX_FAILS + 1)-th since the window opened, the opening being a function of the death times |
| SupervisorRuns.WindowHolds | init/init.c:316-317 | the deaths in the window are the last ones, within FAIL_WINDOW_MS of its opening, which is the first of them unless it is the first window |
| SupervisorRuns.TenInNineSeconds | init/init.c:305-351 | a run with ten deaths in nine seconds after which the daemon is still to be restarted |
| SupervisorRuns.RespawnAfterBackoff | init/init.c:305-338 | a running daemon was started at least BACKOFF_MS after its last death |
| SupervisorLaws.DepUpIs | init/init.c:269-275 | a name is up if and only if the service of that name, if there is one, is |
| SupervisorLaws.OneshotOnce | init/init.c:305-315 | in every run without commands a oneshot exits at most once, counts as up if and only if it has exited with status 0, and has no process once it has exited |
| SupervisorLaws.OneshotSettles | init/init.c:305-315 | and so for ever: whatever follows, it stays up or stays down and is not started again |
| SupervisorLaws.DaemonUpExactly | init/init.c:330-351 | in every run a daemon counts as up if and only if it has a process and some pass since its start found its path or came 6000 ms or more after the start |
| SupervisorLaws.StartsExactly | init/init.c:269-338 | in every run without commands the next pass starts a service without a process if and only if fork succeeds, 1000 ms have passed since its last death, every oneshot it comes after has exited with 0 and every daemon is up, and it is neither a finished oneshot nor given up on |
| SupervisorLaws.BootCompletes | init/init.c:327-351 | without circular dependencies, a healthy table that a pass leaves alone has every service up |
| SupervisorLaws.CircularNeverStarts | init/init.c:269-338 | services that come after one another in a circle wait for ever |
| SupervisorLaws.StoppedOnExit | init/init.c:311 | a stopped service is STOPPED when its process exits, whatever the status |
| SupervisorLaws.StopStays | init/init.c:305-351 | after stop, in every run without start or restart of that name, it keeps the process it had or has none, and never gets another |
| SupervisorLaws.StartBringsBack | init/init.c:458-469 | after start or restart, a service without a process is started by the next pass whose fork succeeds if what it comes after is up, whatever became of it before |
| SupervisorLaws.StartForgets | init/init.c:458-469 | and five more deaths, however close, do not make the supervisor give up |
| SupervisorLaws.RunningIgnores | init/init.c:458-469 | start and restart change nothing in the table while the service has a process |
| SupervisorLaws.RestartExactly | init/init.c:466-469 | a running service that is restarted comes back after its exit and the backoff if and only if it is a daemon and the crash loop guard has room |
| SupervisorLaws.OneshotNotRestarted | init/init.c:466-469 | a run in which a oneshot is restarted while it runs and no later pass starts it |
| SupervisorLaws.NextDelayIsLeast | init/init.c:355-377 | the delay is the least time any service or client waits for, 60000 ms at the most, and -1 if and only if there is none |
| KHeap.GrowFits | kernel/mm/kmalloc.c:42-62 | the pages asked for hold the request if and only if it is at most 0xFFFFEFF0; beyond, a 32-bit sum wraps |
| KHeapCode.Kheap.Grow | kernel/mm/kmalloc.c:42-62 | the granted pages become one free block behind the tail; no live payload changes |
| KHeapCode.Kheap.Split | kernel/mm/kmalloc.c:66-79 | the block is cut in two when the remainder is worth it, inside its own bytes |
| KHeapCode.Kheap.Kmalloc | kernel/mm/kmalloc.c:81-107 | first fit or growth, as the block list says; the payload is zeroed and no other live payload changes |
| KHeapCode.Kheap.Kfree | kernel/mm/kmalloc.c:111-127 | the block is free and merged with a free adjacent successor; no live payload changes |
| KHeapCode.Kheap.Krealloc | kernel/mm/kmalloc.c:129-143 | a moved block keeps its contents and no other live payload changes |
| KHeapOps.KmallocGives | kernel/mm/kmalloc.c:81-107 | success gives an 8-aligned live block that was not live before, with the room asked for if and only if rounding up does not wrap, and all live blocks stay; failure changes nothing |
| KHeapOps.KmallocKeepsExactly | kernel/mm/kmalloc.c:42-107 | for every size, kmalloc keeps the tiling and the count if and only if it does not have to grow for a request between 0xFFFFEFF1 and 0xFFFFFFF8 |
| KHeapOps.WrappedBlock | kernel/mm/kmalloc.c:42-107 | in that case the new block reaches beyond the address space |
| KHeapOps.NothingServed | kernel/mm/kmalloc.c:81-107 | a request for 0xFFFFFFFF bytes is served with a block of none |
| KHeapOps.KfreeEnds | kernel/mm/kmalloc.c:111-127 | that block's life ends and no other's |
| KHeapOps.KreallocGives | kernel/mm/kmalloc.c:129-143 | the result has the room asked for if and only if rounding up does not wrap, or is null and nothing changed; every other live block stays |
| KHeapLaws.RequestIs | kernel/mm/kmalloc.c:81-85 | the size is rounded up to a multiple of 8, and 0 to 8 |
| KHeapLaws.ServedFromList | kernel/mm/kmalloc.c:87-96 | if a free block has room, kmalloc hands out the first such block and takes no page |
| KHeapLaws.ServedFromPages | kernel/mm/kmalloc.c:42-107 | if none has, it takes the least number of pages that hold the request and a header, or hands out nothing and changes nothing |
| KHeapLaws.LittleWaste | kernel/mm/kmalloc.c:66-79 | less than 32 bytes more than asked for are handed out, and the rest of the block stays a free block right behind |
| KHeapLaws.FreedRoom | kernel/mm/kmalloc.c:111-127 | a freed block is free, joined with the next one of the list if and only if that is free and adjacent |
| KHeapLaws.FreedServesAgain | kernel/mm/kmalloc.c:81-127 | a request for as much as was freed, neighbour included, succeeds without a page |
| KHeapLaws.MovesExactly | kernel/mm/kmalloc.c:129-143 | krealloc keeps the pointer, and then changes nothing, if and only if the rounded size fits the block; the old pointer of a moved block is dead |
| KHeapLaws.NullIsNew | kernel/mm/kmalloc.c:131-132 | krealloc of null is kmalloc |
| KHeapOps.AllocKeeps | kernel/mm/kmalloc.c:66-107 | splitting and taking keep the tiling, the alignment and the use count |
| KHeapOps.FreeKeeps | kernel/mm/kmalloc.c:111-127 | freeing and merging keep them too |
| KHeapOps.GrowKeeps | kernel/mm/kmalloc.c:42-62 | and so does growing by fresh pages |
| KHeapOps.HeapRuns | kernel/mm/kmalloc.c:42-143 | after any run every byte of the granted pages is in exactly one block, no other byte is in any, and used_bytes is the sum of the blocks in use |
| KHeapOps.LivePayloadsApart | kernel/mm/kmalloc.c:42-143 | live payloads are 8-aligned and share no byte with each other or with a header |
| LookupCode.ChildOf | kernel/fs/ramfs.c:53-65 | the first entry with that name, the directory for ".", its parent for ".."; FindIsFirst, DotStays and DownAndUp say what these are |
| LookupCode.LookupBudget | kernel/fs/ramfs.c:116-164 | the loop and the recursion return the inode and the remaining budget of the resolution, or null |
| Lookup.LinksBounded | kernel/fs/ramfs.c:116-164 | a resolution terminates, follows at most its budget of links, and leaves the rest |
| Lookup.AtMostEight | kernel/fs/ramfs.c:166-170 | on every tree, cyclic or not, at most 8 links are followed |
| LookupSubst.Compose | kernel/fs/ramfs.c:116-164 | resolving a/rest is resolving a with its last link followed and going on from there |
| LookupSubst.TargetThen | kernel/fs/ramfs.c:149-158 | going on behind a link is resolving its text with the rest of the path, under one link less |
| LookupSubst.LookupIsRewrite | kernel/fs/ramfs.c:116-164 | following links by recursion is rewriting the path by their text: same inode, same links, same budget left |
| LookupSubst.EmptyTargetIsNotText | kernel/fs/ramfs.c:153-154 | an empty target stands for ".", not for its text, which would make the rest absolute |
| LookupSubst.TextFitsExactly | kernel/fs/ramfs.c:149-158 | in every tree a link can be replaced by its text as it stands if and only if the text is not empty |
| LookupLaws.FindIsFirst | kernel/fs/ramfs.c:61-64 | the list walk answers with an inode if and only if that is the first entry of the name, and with null if and only if there is none |
| LookupLaws.FoundIsChain | kernel/fs/ramfs.c:116-164 | in every tree, a path of plain names ends at an inode without passing a link if and only if the tree has a chain of first entries with these names to it |
| LookupLaws.NameThen | kernel/fs/ramfs.c:124-162 | one component in front of a slash is one step, and the rest follows |
| LookupLaws.TooLong | kernel/fs/ramfs.c:126-133 | a path that begins with a component of 64 bytes or more is not found |
| LookupLaws.Absolute | kernel/fs/ramfs.c:119-122 | a leading slash starts at the root, wherever the caller is |
| LookupLaws.LinkItself | kernel/fs/ramfs.c:149-150 | a link at the end is itself the answer when links are not followed |
| LookupLaws.LinkFollowed | kernel/fs/ramfs.c:149-157 | followed, it costs one of the budget and its text is resolved from its directory |
| LookupLaws.BudgetExact | kernel/fs/ramfs.c:149-157 | a resolution that needs k links gives the same answer under every budget of k or more, and none under less |
| LookupLaws.EightExactly | kernel/fs/ramfs.c:166-170 | so a path that resolves at all resolves in the kernel, to the same inode, if and only if it needs at most 8 links |
| LookupLaws.DownAndUp | kernel/fs/ramfs.c:53-60 | in every tree, name/../rest is rest for every subdirectory name: same answer, links and budget |
| LookupLaws.RootUp | kernel/fs/ramfs.c:36 | above the root is the root |
| LookupLaws.DotStays | kernel/fs/ramfs.c:57-58 | "." is the directory itself |
| LookupLaws.BuiltIsTree | kernel/fs/ramfs.c:33-107 | every tree the kernel builds has parents that agree with its entries, and a root that is its own parent |
| LookupLaws.MadeIsFound | kernel/fs/ramfs.c:41-107 | what was made is found under its name, and no other name finds anything new |
| ExecStackCode.PushStrings | kernel/kernel/proc.c:202-218 | the strings with their NULs, downward, each at the recorded address; fails exactly when they do not fit |
| ExecStackCode.SetupUserStack | kernel/kernel/proc.c:186-263 | succeeds exactly for vectors of at most 63 strings that fit the page, and then the page holds the planned layout |
| ExecStackAux.AcceptedIs | kernel/kernel/proc.c:186-234 | what is accepted: at most 63 arguments and 63 variables whose bytes, with the random bytes and a word for argc, each pointer, the NULLs and the pairs, fit between the page and the top |
| ExecStackCode.LibcStartMain | libc/src/start.c:15-24 | on the laid-out page: argc is the number of arguments, and argv and envp are arrays that lead to the strings in order and end in 0 |
| ExecStackCode.ExecThenStart | kernel/kernel/proc.c:186-263 | from the kernel's layout to the C library's start: the program sees exactly the argv and envp handed to exec |
| ExecStack.ArgvRoundTrip | libc/src/start.c:15-24 | argc is the number of arguments and argv[i] leads to the i-th |
| ExecStack.EnvpRoundTrip | libc/src/start.c:15-24 | envp = argv + argc + 1 leads to the environment, in order |
| ExecStack.AuxRoundTrip | kernel/kernel/proc.c:226-259 | both arrays end in NULL and the auxiliary vector follows, static or dynamic; AuxTags says what it holds |
| ExecStack.RandomThere | kernel/kernel/proc.c:220-224 | AT_RANDOM's bytes lie between the vector and the strings |
| ExecStackAux.AuxTags | kernel/kernel/proc.c:220-259 | the word behind tag 6 is 4096, behind 25 the address of the sixteen bytes a5 to b4; for a dynamic program behind 3, 4, 5, 9 and 7 its headers, their size and number, its entry and the base, and behind 11 to 14 and 23 zero; then 0 |
| ExecStackAux.AuxStart | libc/ld/src/dl_main.c:213-222 | walking past argv and the environment ends at the auxiliary vector |
| ExecStackAux.DlMain | libc/ld/src/dl_main.c:211-238 | the dynamic linker finds the program headers, their number, the entry and the base that execve was given, and refuses a static program |
| ExecStackAux.ExecThenLink | kernel/kernel/proc.c:186-263 | from the kernel's layout to ld.so: it learns the program if and only if the stack was accepted and there is one to link |
| PagedFile.PagesCover | kernel/fs/ramfs.c:223-229 | the computed page count covers the file if and only if its end is at most 2^32 - 4096 |
| PagedFile.NoPagesPastEnd | kernel/fs/ramfs.c:223-229 | for every end beyond, no page at all is asked for |
| PagedFileCode.File.EnsurePages | kernel/fs/ramfs.c:175-196 | grows by zero pages exactly when slots and frames suffice; either way no byte of the file changes; a page table that grows at least doubles |
| PagedFileCode.File.Read | kernel/fs/ramfs.c:198-218 | the bytes of the file from the offset, cut at its end |
| PagedFileCode.File.Write | kernel/fs/ramfs.c:220-244 | all bytes and the size afterwards, for every offset and length; when each error is returned; the copy leaves the held pages, or the size outgrows them, if and only if the end lies between 2^32 - 4095 and 2^32 - 1 |
| PagedFileCode.File.WriteThenRead | kernel/fs/ramfs.c:198-244 | what was written is read back byte for byte |
| PagedFile.WrittenIs | kernel/fs/ramfs.c:220-244 | after a write the bytes are where they were put, the others as they were, the gap zeros, and the end the later of the two |
| PagedFile.WriteOn | kernel/fs/ramfs.c:220-244 | two writes, one right behind the other, are one write of both |
| PagedFile.ResizedIs | kernel/fs/ramfs.c:246-264 | a change of size keeps the bytes in front of it and adds zeros |
| PagedFileCode.File.Truncate | kernel/fs/ramfs.c:246-264 | all bytes and the size afterwards, for every size; the size outgrows the pages if and only if it is above 2^32 - 4096; a cut gives up the frames of exactly the pages behind it |
| PagedFile.WriteSeen | kernel/fs/ramfs.c:220-244 | a reader sees the bytes written and zeros in the gap if and only if nothing is left over there, so always in a clean file, which stays clean |
| PagedFile.TruncSeen | kernel/fs/ramfs.c:246-264 | a reader sees the sequence cut, or extended by zeros if nothing is left over; a clean file stays clean if and only if the bytes cut off in the last page are zeros |
| PagedFile.CutAndExtended | kernel/fs/ramfs.c:246-264 | a clean file cut and extended again reads zeros if and only if the cut bytes of that page were zeros |
| PagedFileCode.File.CutAndExtend | kernel/fs/ramfs.c:246-264 | the same of two calls |
| PagedFileCode.File.Run | kernel/fs/ramfs.c:220-264 | after any run of writes and truncations, failures included, all bytes are those of the operations that succeeded; with tidy cuts the contents are the sequence they spell |
| PagedFile.RunSeen | kernel/fs/ramfs.c:220-264 | runs of the operations on all bytes show the fold of the operations on sequences |
| PagedFile.WholePageRunsTidy | kernel/fs/ramfs.c:246-264 | cuts to whole pages, 0 as in O_TRUNC included, are always tidy |
| PagedFileCode.StaleByteShows | kernel/fs/ramfs.c:246-264 | "ab" written, cut to "a" and extended again reads "ab" |
| PagedFileCode.EmptyWriteExtends | kernel/fs/ramfs.c:241-242 | an empty write behind the end extends the file with zeros |
| FramesCode.Machine.PmmAllocPage | kernel/mm/pmm.c:63-75 | the first free frame, zeroed, and no other byte changes; or 0 and no change |
| FramesCode.Machine.PmmAllocAligned | kernel/mm/pmm.c:77-102 | the first run of free frames whose address passes the mask test, exactly those taken and zeroed; 0 only when there is no such run |
| FramesCode.MaskIsRemainder | kernel/mm/pmm.c:86 | for a power of two the mask test is divisibility |
| FramesCode.Machine.PmmFreePage | kernel/mm/pmm.c:104-113 | clears a used frame's bit, ignores everything else |
| FramesCode.Machine.PmmReserve | kernel/mm/pmm.c:119-131 | marks exactly the pages that overlap the range, counting each once |
| Frames.TakeKeeps | kernel/mm/pmm.c:63-75 | giving a free frame to an owner keeps the count exact and every frame with one owner |
| Frames.GiveKeeps | kernel/mm/mmap.c:71-76 | so does unmapping and freeing |
| FramesMap.GiveRangeKeeps | kernel/mm/mmap.c:204-219 | the unmapping loop removes exactly the pages of its range |
| FramesMap.RollBack | kernel/mm/mmap.c:61-69 | giving back the pages mapped into an unmapped range restores the memory: bitmap, count and page table |
| FramesCalls.GrowCount | kernel/mm/mmap.c:57-70 | the heap loop maps as many pages as vm_map_page serves from the start and frames are free |
| FramesCalls.GrowRestores | kernel/mm/mmap.c:57-70 | growth succeeds if and only if that is all of them; when it fails the memory is as before if and only if the pages it mapped were unmapped before |
| FramesCalls.RemapSucceeds | kernel/mm/mmap.c:85-102 | mapping over a range succeeds if and only if vm_map_page serves all of it and there is a frame for each page that had none |
| FramesCalls.RemapMoves | kernel/mm/mmap.c:85-102 | nothing outside the range changes hands; success maps all of it, failure gives nobody a frame |
| FramesRuns.GrowFileMoves | kernel/fs/ramfs.c:187-195 | a file grows if and only if there are frames enough; its new slots have frames of their own and nothing else changes hands |
| FramesRuns.ShrinkFileMoves | kernel/fs/ramfs.c:254-261 | the slots behind the end lose their frames and nothing else changes hands |
| FramesRuns.DoKeeps | kernel/mm/mmap.c:40-219 | every call with any arguments keeps one owner per frame, the exact count, and user pages in user space |
| FramesRuns.FramesOverRuns | kernel/mm/mmap.c:40-219 | so they hold in every state of every run of brk, mmap2, MAP_FIXED, munmap, file growth and truncation |
| FramesLeaks.TakeLeaks | kernel/mm/pmm.c:63-75 | taking a frame for an owner loses one if and only if the owner had another |
| FramesLeaks.GrowRangeLeaks | kernel/mm/mmap.c:57-70 | growing the heap loses a frame if and only if it maps over a page, whether it succeeds or not |
| FramesLeaks.GrowFileLeaks | kernel/fs/ramfs.c:187-195 | growing a file loses a frame if and only if a slot it reaches has one |
| FramesLeaks.DoLeaks | kernel/mm/mmap.c:40-219 | a call leaves every used frame with an owner if and only if they had one and it is no such brk or file growth |
| FramesLeaks.LeaksOverRuns | kernel/mm/mmap.c:40-219 | over every run, if and only if they had at first and no call lost one |
| FramesLeaks.BrkLoses | kernel/mm/mmap.c:57-70 | a brk that succeeds over a MAP_FIXED page loses its frame |
| FramesLeaks.GrowFileLoses | kernel/fs/ramfs.c:187-195 | a growth tried again after a failure loses the frame the failure left |
| FramesLeaks.FailedGrowth | kernel/fs/ramfs.c:187-195 | the calls that lead there |
| FramesExact.BrkExact | kernel/mm/mmap.c:40-80 | the break moves if and only if the pages can be mapped; otherwise it stays, and the memory is as before if and only if the pages mapped were unmapped before |
| FramesExact.BrkLosesPage | kernel/mm/mmap.c:57-70 | after a MAP_FIXED page ahead of the break, a brk over it that runs out of frames keeps the break but not the memory |
| FramesExact.MmapSucceeds | kernel/mm/mmap.c:142-202 | exactly when mmap2 succeeds, in terms of the arguments and the free frames |
| FramesExact.MmapGives | kernel/mm/mmap.c:142-202 | the mapping then lies in user space, at the fixed address or right below the last one and above the heap, with all its pages mapped and nothing outside changed |
| FramesExact.MmapFails | kernel/mm/mmap.c:142-202 | a failure gives nobody a frame and touches only the range |
| FramesExact.MmapKeepsProc | kernel/mm/mmap.c:142-202 | mmap2 keeps the addresses of the process in user space |
| FramesExact.MunmapCovers | kernel/mm/mmap.c:204-211 | the pages given back cover the range if and only if it ends at or below 2^32 - 4096; beyond, there are none |
| FramesExact.MunmapMisses | kernel/mm/mmap.c:204-211 | an unmapping of 0xC7FFF001 bytes that gives back nothing |
| FramesExact.MunmapKeepsProc | kernel/mm/mmap.c:204-219 | munmap keeps the addresses of the process in user space if and only if it does not start at mmap_top, or ends in user space, or wraps past 0 |
| FramesExact.TopOutsideFails | kernel/mm/mmap.c:155-177 | with mmap_top outside user space every mmap2 without MAP_FIXED fails |
| FramesExact.MunmapThenMmap | kernel/mm/mmap.c:155-219 | two unmappings after which that is the case |
| FramesLaws.BrkAsks | kernel/mm/mmap.c:45-53 | outside the process's heap range brk changes nothing |
| FramesLaws.BrkMoves | kernel/mm/mmap.c:55-79 | after a brk that moves the break the pages up to the new one are there, those from it up to the old one are gone, and nothing else has changed hands |
| FramesLaws.MmapRefusals | kernel/mm/mmap.c:144-175 | the refusals in order, without 32-bit sums: -22, -38, -9, -22, a fixed range that is not aligned or not in user space -22, no room below the last mapping in user space above the break -12; and where the mapping goes |
| FramesLaws.MmapFailures | kernel/mm/mmap.c:177-188 | after the refusals, -12 if and only if a page cannot be mapped or the frames run out, and else -13 if and only if the file cannot be read |
| FramesLaws.MunmapClears | kernel/mm/mmap.c:204-219 | below the last page of the address space: afterwards no page of the range is mapped, nothing else has changed hands, and mmap_top moves past the range only if it began there |
| FramesCode.Machine.GrowHeap | kernel/mm/mmap.c:57-70 | the loop and its roll-back leave the memory the function of the free frames says; the new pages hold zeros and nobody else's bytes change |
| FramesCode.Machine.SysBrk | kernel/mm/mmap.c:40-80 | from any state: the memory, the break and the result of the brk function; the new pages hold zeros and nobody else's bytes change |
| FramesCode.Machine.MapZeroedRange | kernel/mm/mmap.c:85-102 | the memory and the verdict of mapping over the range; its pages hold zeros and nobody else's bytes change |
| FramesCode.Machine.CopyFileInto | kernel/mm/mmap.c:108-130 | page by page, the zeroed mapping shows the file as far as it goes, and no other page changes |
| FramesCode.Machine.SysMmap2 | kernel/mm/mmap.c:142-202 | from any state and arguments: the memory, mmap_top and the result of the mmap2 function, its error cases in order; the process then sees the file's bytes from the offset on, zeros behind its end and behind the length, or only zeros; nobody else's bytes change, whatever the outcome |
| FramesCode.Machine.SysMunmap | kernel/mm/mmap.c:204-219 | from any state: the memory, mmap_top and the result of the munmap function; no byte changes |
| FramesCode.Machine.GrowFileSlots | kernel/fs/ramfs.c:187-195 | the frame loop of a growing file: the new slots hold zeros and no used frame's bytes change |
| FramesCode.Machine.ShrinkFileSlots | kernel/fs/ramfs.c:254-261 | the freeing loop of a truncation |

## Left out

- Boot code, DRAM and SD-card drivers, consoles, interrupts, page-table formats, cache and TLB maintenance: register access without visible semantics.
- execve's ELF loading, shebang handling and signals, and what ld.so does with the program it found: they rest on the page-table code.
- gunzip's container and its CRC-32 around inflate_raw.
- The C library's malloc: the kernel heap's design again.
- The engine's rendering, audio, text, physics and meshes, and the CAD and debugging tools: floating point, pixels and sockets.
- Directory operations other than lookup, stat, getdents, ioctl and seek: easy members.
- Epoll, sockets, signalfd, logging and config parsing in init, and the shutdown sequence: they appear as events or not at all.
- Registers and the program counter in the process model: a call that is issued again after a sleep is a new step of the run.
- Process identifiers and the inode and description counters are unbounded; 32-bit wrap-around of pids is not modelled.
- InflateRaw: asks for inputs and outputs below 2^31 bytes, because the source returns the length as a 32-bit long.
- SysRead: console and regular-file reads are not modelled; regular files are in PagedFile.
- SysWrite: console and regular-file writes are not modelled.
- SysOpen: path lookup and creation are inputs; console opens are ordinary opens.
- SysDup: also serves F_DUPFD; FD_CLOEXEC is not modelled.
- SetBootargs: asks for a blob whose tokens stay inside the structure block and whose names end inside the strings block; for other blobs the source reads outside them.
- Getprop: takes the path as its components, and asks for a blob whose tokens and names end inside their blocks; the tests against malformed blobs are in the code but never fire then.
- HandleCommand: status, reload, the replies and the signals sent are not modelled.
- Kmalloc: asks that it does not have to grow for a request whose page count wraps, the exact condition of KmallocKeepsExactly; in that case the source writes a header into memory it was not given. That pmm zeroes the pages it grants is not used.
- Krealloc: asks the same unless it returns the pointer it was given.
- Kfree: asks for null or a live pointer; a header is a record beside the bytes it covers, which read as changed.
- SetupUserStack: addresses do not wrap, since all strings come from one 4096-byte buffer; after a failure the page may hold part of the layout.
- Write: ends with `wild` when its copy reaches a page the file does not hold; what the source overwrites then is not modelled.
- Run: asks for operations that end where PagesCover holds or that are refused; the others leave the file longer than its pages.
- BuildDynamic: does not fix which negative code a refusal returns; inflate_raw answers -15 for all of them.
- PmmAllocPage: the bitmap is a sequence of flags; the shifts and masks that pack it into bytes are not modelled.
- SysMmap2: what the file holds is an input, and the instruction cache is not modelled.
- Mappable: that a second-level table can be made is an input, and such tables take no frames of the model.
- GrowFileSlots: frames got before a failure stay in their slots behind the page count, as in the source; GrowFileLeaks says when they are lost.
- EngFlowField: cols * rows does not overflow an int.
