# A verified model of sloader

sloader is an ELF loader that replaces `ld-linux.so`: it finds the libraries a
program needs, maps them, relocates them, lays out thread-local storage, builds
the initial stack and later serves `dlopen` and `dlsym`. This project models the
loader (`dyn_loader.cc`, `sloader_dl.cc`, the TLS pieces of `libc_mapping.cc` and
`tls_secure.cc`) and two small tools it uses, and proves what its loops achieve
together, over every dependency graph and every run.

`dafny verify dfyconfig.toml` checks the whole project.

## How the model is built

- The loader's mutable objects are the classes `ElfBinary`, `Process` (the
  address space: a byte for every mapped address) and `DynLoader`. Their methods
  follow the source's loops. Each method is tied to a function of a `State`
  value, and the theorems are about those functions.
- `State` is the fields of `DynLoader` plus two records kept for reasoning only:
  `log` says for which needed name, and of which binary, each binary was loaded;
  `relog` lists the binaries relocated.
- `Halt` is the end of the process: a failed `CHECK`, `std::abort`, or an access
  that faults. `LOG(FATAL)` prints and goes on, as `utils.h` defines it: a null
  entry ends the loop over an init array without ending the process.
- `World` is what the loader consults and never changes: the files by path,
  `FindLibrary` as an arbitrary resolver, the libc override maps as arbitrary
  maps, the address of the TLS area and the host's auxiliary values.
- `mmap` with a hint and without `MAP_FIXED` maps a nonempty free range of user
  addresses exactly where it was asked to; anything else fails the `CHECK` behind it.
- A run is a start (`LoadAndRelocate` of the main program) followed by any
  sequence of `dlopen` calls, `dlsym` calls and writes by the program itself.

| file | contents |
|---|---|
| `Words`, `Memory`, `Strings`, `Elf` | 64-bit words, memory, `std::string::find`, ELF files |
| `Dynamic`, `Loading`, `ElfBinary` | one binary: dynamic section, segments, the class |
| `LoadOrder`, `BreadthFirst`, `Requests`, `AddressSpace`, `Progress` | loading a dependency graph |
| `Symbols`, `Effects`, `Relocation`, `RelocationOrder`, `CopyRelocation` | symbols and relocation |
| `Session`, `Bindings` | whole runs |
| `Tls`, `InitialStack`, `Constructors` | the steps of `Execute` |
| `DynLoader` | the class with all its operations |
| `RawPrint`, `SplitWith` | number printing, splitting PATH |
| `Examples`, `Linked`, `OpenedLater` | concrete programs that meet the theorems' conditions, and the departures they show |

## Where the code and a standard part ways

Each of these is an if-and-only-if theorem, so the harmless case is exact too,
and each is shown on a concrete input.

- Several binaries with TLS: a binary's self-pointer overwrites the start of the
  block of the TLS binary before it (`Tls.ExactIff`, `Linked.BlocksNotExact`), may
  overlap the thread pointer's own word (`Tls.SelfWordIff`, `Linked.SelfWordBroken`),
  and `sloader_tls_get_addr` is right for the lowest block only
  (`Tls.TlsGetAddrAgreesIff`, `Linked.TlsGetAddrMisses`).
- `dlopen` lays out no TLS: the block of a library opened after the start lies
  below everything that was laid out (`Tls.LaidOutIff`, `OpenedLater.LaterTlsNotLaidOut`).
- For a TLS variable of libc the word stored must be taken from the thread pointer
  instead of being added to it (`Tls.LibcTlsAgreesIff`, `Linked.ErrnoMisses`).
- Copy relocations copy a variable before its library is relocated
  (`CopyRelocation.CopyIsCurrentIff`, `Linked.CopyIsStale`). They are the only
  relocations for which order matters (`RelocationOrder.AnyOrder`,
  `RelocationOrder.CopiedByteOrderIff`, `Linked.CopyDependsOnOrder`); with the
  library first the copy would be current (`Linked.LibraryFirstIsCurrent`).
- Constructors run in reverse load order, which is not always dependency order
  (`Constructors.DependenciesFirstIff`, `Examples.DiamondRunsTooEarly`).
- A name bound to a weak reference can move when a later `dlopen` defines it
  (`Symbols.StableIffDefined`, over runs `Session.SymbolKeptIff`; `OpenedLater.WeakNameMoves`).
- The stack pointer is 16-byte aligned at entry for one parity of the number of
  arguments and environment strings only (`InitialStack.AlignedIff`,
  `InitialStack.TwoStringsMisalign`).
- `SplitWith` drops the text behind the last delimiter, so the last directory of
  PATH is not searched unless PATH ends in a colon (`SplitWith.NothingLostIff`,
  `SplitWith.LastDirectoryLost`; for longer delimiters, `SplitWith.LongDelimiterLoses`).
- The 21-byte buffer of `RAW_PRINT_BASE_N` is too small for bases below 9
  (`RawPrint.AllFitIff`, number by number `RawPrint.FitsIff`).

## Model

| member | source | states |
|---|---|---|
| `ElfBinaries.Process.Map` | dyn_loader.cc:131-134 | a mapping succeeds exactly at a nonempty free range of user addresses, and is then zero-filled and nothing else changes |
| `ElfBinaries.ElfBinary.constructor` | dyn_loader.cc:65-92 | keeps all program headers, and the last PT_DYNAMIC and the last PT_TLS |
| `ElfBinaries.ElfBinary.Load` | dyn_loader.cc:94-150 | new memory, binary and next base are those of `LoadImage`, or both halt |
| `ElfBinaries.ElfBinary.LoadSegmentsInto` | dyn_loader.cc:101-142 | the segment loop refines the recursive `LoadSegments`; end is the last segment's page end |
| `ElfBinaries.ElfBinary.ParseDynamic` | dyn_loader.cc:152-260 | the whole parse: halts on exactly the failing checks, otherwise yields the section's contents and tables |
| `ElfBinaries.ElfBinary.FindStrtab` | dyn_loader.cc:159-170 | the first pass finds the last DT_STRTAB |
| `ElfBinaries.ElfBinary.ScanEntries` | dyn_loader.cc:174-221 | the second pass refines `ScanAll` |
| `ElfBinaries.ElfBinary.ReadTable` | dyn_loader.cc:224-242 | reads the records of a relocation table in order; a zero entry size or a remainder halts |
| `Dynamic.ScanGathers` | dyn_loader.cc:174-221 | the second pass succeeds exactly on acceptable entries and then holds, tag by tag, the last value, and all needed names in order |
| `Dynamic.ParseContents` | dyn_loader.cc:152-260 | what a parse yields: for each tag the last value, DT_RUNPATH and DT_RPATH each in its own field, the needed names in order, the symbols if DT_SYMTAB is not null, and the records of both relocation tables in order |
| `Dynamic.ParseOkIff` | dyn_loader.cc:152-260 | a parse succeeds exactly when the base is not 0 or the file ET_EXEC, the section has whole entries, there is a string table or the file is ET_EXEC, each entry is acceptable and both relocation tables are whole |
| `Dynamic.TablesAreRead` | dyn_loader.cc:224-242 | relocation i is the record at table + 24 i, and the tables' sizes divide |
| `Dynamic.ParseOrderIndependent` | dyn_loader.cc:159-221 | permuting the entries, keeping the order of DT_NEEDED, changes neither the parse nor whether it halts |
| `Loading.SegmentLoads` | dyn_loader.cc:105-141 | a segment takes exactly its pages, all free before, changes nothing else and holds file bytes then zeros |
| `Loading.BinaryLoads` | dyn_loader.cc:94-150 | a binary takes exactly its segments' pages, all free before, changes no earlier byte, holds its image, and its segments share no page |
| `Loading.BinaryFields` | dyn_loader.cc:65-99 | an ET_DYN binary sits at the base given, any other at 0; its headers are the file's, its TLS segment the last PT_TLS, and the rest is what the parse at that base yields |
| `Loading.EndIsLast` | dyn_loader.cc:103-109 | a binary ends at the page end of its last PT_LOAD segment |
| `Elf.FilenameIsLastPart` | dyn_loader.cc:318-318 | the filename of a path is its longest suffix without a slash |
| `Strings.FindIsFirst` | dyn_loader.cc:335-335 | `std::string::find` yields the first occurrence, or nothing exactly when there is none |
| `Elf.SkippedIff` | dyn_loader.cc:335-335 | a name is skipped exactly when "ld-linux" or "libc.so" occurs in it |
| `LoadOrder.Turn` | dyn_loader.cc:327-346 | every turn marks a new name or shortens the queue, so the work loop ends on every graph |
| `LoadOrder.LoadAllCloses` | dyn_loader.cc:315-347 | from a closed state to a closed state: every needed name is loaded or skipped, every binary was asked for by an earlier one under a name used by no earlier binary or root, and nothing else is marked |
| `Requests.ProgramLoadsRequests` | dyn_loader.cc:315-347 | at every point of every run, each binary but the roots was needed by an earlier one, under a name in which neither "ld-linux" nor "libc.so" occurs, and is what FindLibrary gives for that name with that binary's DT_RUNPATH and DT_RPATH; and every such needed name is loaded |
| `Requests.OpenLoadsArgument` | sloader_dl.cc:14-34 | dlopen does nothing for null and for names in which one of the two occurs, and else loads first what FindLibrary gives for its argument without search paths |
| `BreadthFirst.LevelsAscend` | dyn_loader.cc:327-346 | levels never decrease along the binaries of a load |
| `BreadthFirst.LoadIsBreadthFirst` | dyn_loader.cc:315-347 | the level of every binary of a load is its shortest distance from the root in the realised graph |
| `BreadthFirst.NearestDefinitionWins` | dyn_loader.cc:551-564 | after the first load, no definer of a name is nearer to main than the one `SearchSym` picks, ties going to load order |
| `AddressSpace.LoadAllPlaces` | dyn_loader.cc:315-347 | a load keeps all segments of all binaries disjoint and mapped, changes no earlier byte, and every binary it adds holds its file's image on new pages |
| `AddressSpace.LoadAllSteps` | dyn_loader.cc:315-347 | every shared object sits at the base the previous binary's end, rounded up to 4 MiB, hands out |
| `AddressSpace.NextIsSum` | dyn_loader.cc:149-149 | with shared objects only, the next base is 0x1400000 plus the sum of the spans rounded up to 4 MiB |
| `AddressSpace.NeverRequestsOwnPage` | dyn_loader.cc:94-109 | with ascending segments and at most the first binary an ET_EXEC, the next base is a multiple of 4 MiB above every own mapping, so no page of the next binary is one already mapped |
| `Progress.LoadSucceeds` | dyn_loader.cc:315-347 | if every request the root makes, and every request made by a library so requested, is skipped or resolves to a well-formed library, and enough addresses from the next base on are free for these names, whatever is mapped elsewhere, no check of the whole load fails, cycles included |
| `Progress.StartSucceeds` | dyn_loader.cc:315-324 | a well-formed ET_DYN root with such room for it and its libraries loads, queues only its own requests and leaves the rest of the room |
| `Progress.ExecStarts` | dyn_loader.cc:96-97 | so does a well-formed ET_EXEC root whose own pages are free, with room for its libraries behind it |
| `Examples.CycleStarts` | dyn_loader.cc:355-359 | a program whose library needs itself meets all the conditions above, loads and relocates, in every process with 8 MiB free at the first base |
| `Symbols.Scan` | dyn_loader.cc:555-564 | finds the first matching symbol in load order and then table order, and fails only if there is none |
| `Symbols.SearchIsFirst` | dyn_loader.cc:551-576 | in load order and table order, from main or behind it, `SearchSym` yields the first defined symbol of the name, only if there is none the first undefined weak one, and else nothing |
| `Symbols.TlsScanIsFirst` | dyn_loader.cc:581-589 | `TLSSymOffset` looks for the first defined symbol of the name with type STT_TLS |
| `Symbols.DlsymAddrIs` | sloader_dl.cc:36-43 | dlsym gives the symbol's value plus its binary's base address |
| `Symbols.DefinitionStable` | dyn_loader.cc:551-564 | a name with a definition keeps its place and address whatever is loaded later |
| `Symbols.StableIffDefined` | dyn_loader.cc:565-574 | exactly the names with a definition do: weak references can be taken over |
| `Effects.ActAtOnce` | dyn_loader.cc:617-724 | relocations that write no address twice act at once: each byte, unless it is copied from one that is written, is the one its relocation computes from the memory before any of them |
| `Effects.OrderIndependent` | dyn_loader.cc:617-724 | if none is copied so, the result, or the halt, does not depend on order or repetition |
| `RelocationOrder.AnyOrder` | dyn_loader.cc:605-724 | carrying out the relocations of a whole call in any order, over binaries and records, halts exactly when `Relocate` does, and leaves every byte outside the targets of COPY records, and every byte copied from one no relocation writes, as `Relocate` does |
| `RelocationOrder.CopiedByteOrderIff` | dyn_loader.cc:693-716 | a byte copied from one that is not itself such a copy is the same in every permutation of the call's relocations exactly when the other relocations leave the source byte as it was loaded |
| `RelocationOrder.CallOrderIndependent` | dyn_loader.cc:605-677 | when no binary of the call copies from another, the whole memory, or the halt, is the same in every order |
| `RelocationOrder.LoadedOrderless` | dyn_loader.cc:605-677 | after every load of files without overlapping records `AnyOrder` and `CopiedByteOrderIff` apply, and `CallOrderIndependent` too if there are no copy relocations |
| `RelocationOrder.OrderOfRecords` | dyn_loader.cc:611-617 | reordering a binary's records, within and across its two tables, changes nothing |
| `Relocation.RelocatedWord` | dyn_loader.cc:611-692 | after the call, for every record of the PLT's table and of the other one, at base plus r_offset: GLOB_DAT and JUMP_SLOT words are S, R_X86_64_64 words S + A, RELATIVE and IRELATIVE words B + A, DTPMOD64 words 1, TPOFF64 words what `TLSSymOffset` gives, S being the libc override if there is one and else the symbol found; DTPOFF64 words and unresolved ones keep their loaded bytes |
| `Relocation.TpoffWordAgrees` | dyn_loader.cc:678-683 | the thread pointer plus a TPOFF64 word is the symbol's address in the laid out block |
| `Relocation.OthersKeepBytes` | dyn_loader.cc:605-726 | relocation changes only bytes of binaries it relocates |
| `Relocation.RelocateHaltsIff` | dyn_loader.cc:605-726 | the call halts exactly when, in the memory before it, some record of either table of a binary it relocates has a symbol index out of range, an unsupported type, an undefined name for TPOFF64 or COPY, or reads or writes unmapped addresses |
| `Relocation.RelocatesFreshPaths` | dyn_loader.cc:606-609 | a call relocates exactly the first binary of each unmarked path and leaves every path marked |
| `Relocation.RelocateIdempotent` | dyn_loader.cc:606-609 | a second call changes nothing |
| `CopyRelocation.AllReferToCopy` | dyn_loader.cc:624-677 | when main defines a copied variable, every reference in every binary is bound to main's copy, plus the addend for R_X86_64_64 |
| `CopyRelocation.LibcCopy` | dyn_loader.cc:698-716 | a copy of a name libc overrides holds the eight bytes at libc's address |
| `CopyRelocation.SymbolCopy` | dyn_loader.cc:701-716 | any other copy holds as many bytes as the size of the symbol found outside main, from that symbol's address |
| `CopyRelocation.CopyHoldsLoadedBytes` | dyn_loader.cc:693-716 | the copy holds the load-time bytes of the first library definition |
| `CopyRelocation.CopyIsCurrentIff` | dyn_loader.cc:693-716 | a byte of the copy equals the library's own after the call exactly when the library's relocations do not change it |
| `CopyRelocation.StartReadsLoaded` | dyn_loader.cc:693-716 | when copied variables lie inside their files' segments, main's copies read bytes no earlier relocation of the call has changed |
| `Session.ProgramSound` | dyn_loader.cc:355-359 | at every point of every run: exact closure, disjoint segments, bases from the allocator, and each path relocated exactly once, for its first binary |
| `Session.StepSound` | sloader_dl.cc:14-43 | dlopen and dlsym keep all of this and only append binaries |
| `Session.RunKeepsBytes` | sloader_dl.cc:30-31 | over any run a mapped byte changes only by the program's own writes, given that files not yet loaded have relocation targets inside their own segments |
| `Session.ProgramKeepsBytes` | dyn_loader.cc:355-359 | the same from the end of a program's start on |
| `Session.DlsymStable` | sloader_dl.cc:36-43 | once a name has a definition every later dlsym returns the same address |
| `Session.SymbolKeptIff` | dyn_loader.cc:551-576 | over a run a name keeps its symbol exactly when it had a definition at first, or has none at the end and had a weak reference at first or still has none |
| `OpenedLater.WeakNameMoves` | sloader_dl.cc:14-43 | two files: main refers weakly to f, a defines it; dlsym's answer for f changes when the program opens a |
| `Bindings.LoadedRelocatable` | dyn_loader.cc:605-677 | after every load, the start's included, a new first-of-path binary whose records do not overlap meets the conditions of `Relocation.RelocatedWord` |
| `Bindings.RunBinds` | sloader_dl.cc:14-43 | every GLOB_DAT, JUMP_SLOT or R_X86_64_64 word of a library added during a run holds, at its end, libc's override if there is one and else what dlsym then returns, plus the addend for the last kind, for a name overridden or defined by the end of the call that loaded the library |
| `Bindings.ProgramBinds` | dyn_loader.cc:355-359 | the same for every such word of main, its initial libraries and all libraries opened later, over whole programs |
| `Bindings.ProgramOffsets` | dyn_loader.cc:678-683 | over whole programs, every TPOFF64 word of main, its initial and later libraries still leads at the end to the place `TLSSymOffset` gives the name's block, for a name defined by the end of the call that loaded the binary |
| `Bindings.OffsetsInLayout` | dyn_loader.cc:500-539 | that place is the block `Execute` laid out if a binary of the start defines the name, and below every byte it wrote if a library opened later does |
| `Tls.BlockStartIs` | dyn_loader.cc:522-539 | the blocks lie end to end downwards from 4096 in load order, each as long as its PT_TLS segment's p_memsz |
| `Tls.TpoffAgrees` | dyn_loader.cc:578-594 | thread pointer plus `TLSSymOffset`, modulo 2^64, is the offset at which the layout loop put the defining binary's block, plus st_value |
| `Tls.OffsetStable` | dyn_loader.cc:578-594 | later loads do not move the offset of a name already defined |
| `Tls.InitTlsOkIff` | dyn_loader.cc:509-539 | the layout succeeds exactly when the blocks take at most 4096 bytes and every PT_TLS segment is mapped and no longer in the file than in memory |
| `Tls.LibcTlsOffset` | dyn_loader.cc:595-602 | a name no binary defines as TLS has an offset exactly if libc's map has it; the thread pointer minus the word is then libc's address |
| `Tls.LibcTlsAgreesIff` | dyn_loader.cc:595-602 | for addresses in user space the thread pointer plus the word is libc's address only if that is the thread pointer itself |
| `Tls.LaidOutIff` | dyn_loader.cc:522-539 | a nonempty block lies in the part laid out exactly when its binary was there at the time |
| `OpenedLater.LaterTlsNotLaidOut` | sloader_dl.cc:30-31 | the TLS variable of a library opened later lies below the part laid out |
| `Tls.TlsGetAddrAgreesIff` | libc_mapping.cc:170-172 | `sloader_tls_get_addr` gives the same address exactly when no binary behind the defining one has TLS bytes |
| `Tls.BlockByte` | dyn_loader.cc:522-539 | byte x of a binary's block is the byte at base + p_vaddr + x in memory for x below p_filesz and zero from there to p_memsz, unless a later TLS binary's pointer lands on it |
| `Tls.WindowByte` | dyn_loader.cc:535-536 | and then it is that pointer's byte |
| `Tls.ExactIff` | dyn_loader.cc:519-539 | all blocks are exact at every 64-byte-aligned user address of the area exactly when no TLS bytes lie in front of another TLS binary |
| `Tls.SelfWordIff` | tls_secure.cc:3-5 | the word at the thread pointer is the thread pointer, at every such address, exactly when no TLS binary is behind 1 to 7 bytes of TLS |
| `Constructors.TraceCalls` | dyn_loader.cc:386-406 | the calls for a binary are DT_INIT plus the base, if DT_INIT is not zero, and then the DT_INIT_ARRAYSZ / 8 words at DT_INIT_ARRAY plus the base, in order, up to the first null one |
| `Constructors.TraceOkIff` | dyn_loader.cc:386-406 | the calls can be made exactly when every array has whole entries and can be read up to its first null one |
| `Constructors.TraceIsExact` | dyn_loader.cc:386-406 | each binary's functions are called exactly once and in order |
| `Constructors.WholeArrayCalled` | dyn_loader.cc:396-404 | an array without null entries is called in full |
| `Constructors.AskedRunsFirst` | dyn_loader.cc:386-406 | a binary's constructors run before those of the binary that first asked for it, and main's last |
| `Constructors.DependenciesFirstIff` | dyn_loader.cc:386-386 | dependencies are always initialised first exactly when no binary with a DT_INIT or a first array entry needs an earlier loaded one that has one |
| `Examples.DiamondRunsTooEarly` | dyn_loader.cc:386-386 | three files where main needs a and b, and b needs a: they load, and b's constructor runs before a's |
| `InitialStack.CollectAux` | dyn_loader.cc:415-439 | the nonzero host values of the listed types, in order |
| `InitialStack.ListedIff` | dyn_loader.cc:415-430 | the listed types are 1, 4, 6, 8, 10 to 26, 32 to 37, 40 to 47 and 51 |
| `InitialStack.BuildStack` | dyn_loader.cc:453-495 | the array is `StackArray`, and the final index check never fails |
| `InitialStack.ExecuteCore` | dyn_loader.cc:365-369 | memory upward from the stack pointer is the array reversed |
| `InitialStack.RoundTrip` | dyn_loader.cc:453-495 | reading the stack as the psABI says yields argc, the arguments, the environment and the auxiliary pairs reversed |
| `InitialStack.StartOfProgram` | dyn_loader.cc:408-495 | the program's auxiliary values agree with the host's for every listed type and are 0 for all others |
| `InitialStack.AlignedIff` | dyn_loader.cc:454-454 | the stack pointer is 16-byte aligned exactly for one parity of arguments plus environment |
| `InitialStack.TwoStringsMisalign` | dyn_loader.cc:454-454 | one argument and one environment string leave an aligned stack pointer misaligned |
| `DynLoaders.DynLoader.constructor` | dyn_loader.cc:349-353 | the initial state |
| `DynLoaders.DynLoader.LoadDependingLibs` | dyn_loader.cc:315-347 | the work loop refines `LoadAll` and ends |
| `DynLoaders.DynLoader.SearchSym` | dyn_loader.cc:551-576 | refines `Search`: definitions first, then weak references |
| `DynLoaders.DynLoader.TlsSymOffset` | dyn_loader.cc:578-603 | the running, wrapping offset computes `SymOffset` |
| `DynLoaders.DynLoader.RelocateOne` | dyn_loader.cc:618-723 | one relocation of any type has the effect `EffectOf` gives it, or halts |
| `DynLoaders.DynLoader.Relocate` | dyn_loader.cc:605-726 | the two loops refine `RelocateAll` |
| `DynLoaders.DynLoader.RunConstructors` | dyn_loader.cc:386-406 | the calls made are `Trace` |
| `DynLoaders.DynLoader.LayOutTls` | dyn_loader.cc:509-539 | area and offset are those of `InitTls`, written in place and inside the area |
| `DynLoaders.DynLoader.TlsGetAddr` | libc_mapping.cc:170-172 | area address plus current offset plus ti_offset, modulo 2^64 |
| `DynLoaders.DynLoader.Execute` | dyn_loader.cc:378-541 | constructors, stack and TLS together, and exactly the three ways to halt: an unreadable init array, no AT_RANDOM, or TLS that does not fit or cannot be read |
| `DynLoaders.CanExecuteIff` | dyn_loader.cc:378-541 | that is, with readable init arrays, AT_RANDOM, and TLS that is mapped and takes at most 4096 bytes, it does not halt, and in no other case |
| `DynLoaders.StartedProgram` | dyn_loader.cc:408-495 | from the words `Execute` leaves, a program reading as the psABI says gets its arguments, its environment and the host's value for each auxiliary type listed, by number |
| `DynLoaders.DynLoader.Run` | dyn_loader.cc:355-359 | load, relocate and execute, halting exactly when one of the three does |
| `DynLoaders.DynLoader.Dlopen` | sloader_dl.cc:14-34 | one step of a run |
| `DynLoaders.DynLoader.Dlsym` | sloader_dl.cc:36-43 | the address of the symbol `SearchSym` finds, libc overrides not consulted |
| `RawPrint.PrintBaseN` | raw_write/raw_write.h:86-116 | for every base from 2 to 36 and every signed 64-bit value but the minimum, all stores are inside the 21 bytes exactly when the magnitude is below base^21, or base^20 if negative, and the bytes printed are then the number |
| `RawPrint.FitsIff` | raw_write/raw_write.h:92-93 | that bound is exactly when the number's text has at most 21 characters |
| `RawPrint.AllFitIff` | raw_write/raw_write.h:92-93 | all such values fit exactly in the bases from 9 on; below, minus 8 to the 20th does not |
| `RawPrint.ReadShown` | raw_write/raw_write.h:86-116 | what is printed reads back as the number |
| `SplitWith.SplitIsWhole` | utils.cc:4-13 | fields, delimiters and the rest make up the string |
| `SplitWith.FieldsAreClean` | utils.cc:4-13 | no field holds a delimiter |
| `SplitWith.NothingLostIff` | utils.cc:4-13 | with a one-character delimiter nothing is lost exactly when the string is empty or ends in it |
| `SplitWith.LastDirectoryLost` | utils.cc:4-13 | "/a:/b" yields "/a" only |
| `SplitWith.LongDelimiterLoses` | utils.cc:4-13 | with "aa" as the delimiter, "aaa" ends in it and still loses its last character |
| `SplitWith.SplitLoop` | utils.cc:4-13 | the loop returns the fields in front of a delimiter; for a one-character delimiter these are the whole string exactly when it is empty or ends in the delimiter |
| `Linked.LinkedLoads` | dyn_loader.cc:315-347 | a program with a JUMP_SLOT in main's PLT table, a GLOB_DAT, a COPY and a TPOFF64 in its other one, a RELATIVE in its library and initialised TLS in both loads |
| `Linked.BothRelocatable` | dyn_loader.cc:605-677 | it meets the conditions of the relocation theorems |
| `Linked.SlotIsBound` | dyn_loader.cc:623-640 | it relocates, and main's slot holds the address of main's copy |
| `Linked.PltIsBound` | dyn_loader.cc:611-641 | main's PLT slot holds the address of the library's function |
| `Linked.SlotIsLive` | dyn_loader.cc:355-359 | it meets the conditions of `Bindings.ProgramBinds` |
| `Linked.OffsetIsLive` | dyn_loader.cc:678-683 | and those of `Bindings.ProgramOffsets` |
| `Linked.CopyIsStale` | dyn_loader.cc:693-716 | main's copy differs from the library's relocated variable |
| `Linked.OthersInAnyOrder` | dyn_loader.cc:605-677 | every byte but the copy's is the same in any order of its relocations |
| `Linked.CopyDependsOnOrder` | dyn_loader.cc:693-716 | the copy is not: some permutation leaves another byte |
| `Linked.LibraryFirstIsCurrent` | dyn_loader.cc:693-716 | with the library's relocation first the copy equals the library's variable |
| `Linked.TdataIsCopied` | dyn_loader.cc:522-539 | with 4 bytes of TLS in main and 8 in the library, the library's block starts with its .tdata |
| `Linked.BlocksNotExact` | dyn_loader.cc:519-539 | and main's block is wrong at every 64-byte-aligned user address of the area |
| `Linked.SelfWordBroken` | tls_secure.cc:3-5 | and the word at the thread pointer is wrong at every such address whose low byte differs from the fifth byte of the pointer stored below |
| `Linked.TlsGetAddrMisses` | libc_mapping.cc:170-172 | and `sloader_tls_get_addr` gives main's variable another address than its relocations use |

## Left out

- `FindLibrary` and `read_ldsoconf`: directory scanning is an arbitrary resolver.
- The byte encoding of the dynamic section, the string table, relocation records and symbols: the model takes them decoded, by link-time address, and takes names as they are at load time.
- The scan that guesses the length of the symbol table (dyn_loader.cc:244-253): the symbol list is given.
- The private mappings of the files themselves, which the kernel places: they are not part of the memory.
- Page protections, the map file and logging.
- What constructors and the program do beyond writing memory: the trace of constructors is taken over the memory as it was before the first of them ran.
- The jump to the entry point and the other inline assembly.
- The resolver call of IRELATIVE, the addends of TPOFF64, DTPOFF64 and `p_align` of TLS: modelled as the code has them, with no claim of conformance.
- The entries of `sloader_libc_map` and the dummy functions.
- The constant handles `sloader_dlopen` returns, and `sloader_dlvsym` and `sloader_dladdr`.
- Symbol versions, which `SearchSym` ignores.
- `exec_loader.h`, `ldsodefs.h`, `sloader.cc` and the `Show` printers.
- DynLoaders.DynLoader.TlsSymOffset: a binary without PT_TLS counts as 0 bytes, where the code reads an uninitialised header if such a binary defines a TLS symbol.
- DynLoaders.DynLoader.LayOutTls: the sum of the block sizes does not wrap at 2^64.
- RelocationOrder.CallOrderIndependent: calls that copy from a binary they relocate are left to `RelocationOrder.AnyOrder` and `RelocationOrder.CopiedByteOrderIff`, because their whole memory does depend on order.
- Session.RunKeepsBytes: the files that can still be loaded must have relocation targets, copies included, inside their own segments, because the code checks no target.
- Session.ProgramKeepsBytes: the same condition on files.
- Bindings.RunBinds: the same condition on files, and the records of the slot's own binary do not overlap; the code checks neither.
- Bindings.ProgramBinds: as for `Bindings.RunBinds`, and so for `Bindings.ProgramOffsets` and `Bindings.OffsetsInLayout`.
- RawPrint.PrintBaseN: the minimum value is excluded because negating it overflows.
- SplitWith.SplitLoop: an empty delimiter is excluded because the loop then never ends.
