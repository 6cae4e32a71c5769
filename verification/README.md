# A verified model of the neoproot core

neoproot runs a program under a rootfs of its own without privileges: it traces
the program's system calls and rewrites paths, mounts, programs and replies on
the way.  This project models the parts of it that compute, in Dafny, and proves
what they promise.  `dafny verify dfyconfig.toml` checks all of it.

- **The mount namespace.**  `Paths` ties the C string routines to paths as
  sequences of names.  `Bindings` has the table of bindings as the tracer keeps
  it, two linked lists, covered chains and a sorted cache, refining a map from
  guest paths to stacks.  `Mounts` and `Pivot` prove what mount, recursive bind,
  umount and pivot_root do to the translation of every path, with the exact
  conditions under which the kernel's own semantics are met, and inputs that miss
  them.  `Canon` has the recursive canonicaliser; `CanonMeaning` proves it equal to
  an iterative POSIX-style walk.
- **The seccomp filter.**  `Bpf` is the machine, `Seccomp` the compiler, and
  `FilterMeaning` proves that the program means the table.
- **Loading programs.**  `ElfMap` turns headers into mappings, `LoadScript` packs
  them into a script, `Loader` replays it out of the memory it maps over, and
  `ProgramLoad` puts these together, from headers to the final memory image.
  `Aoxp` and `Shebang` rewrite argument vectors in the tracee's memory.
- **Sessions.**  `Framing` and `FramingMeaning` are the wire; `Daemon` is the job
  state machine facing a guest, `DaemonSafety` what every run of it keeps,
  `DaemonTimes` what a run owes to the time a client asks for, and `DaemonLimits`
  the runs that show where it stops.  `GuestLoop` reads the request at the other end.
- **Smaller stateful parts.**  `Buffer`, `DirfdCache`, `ProcFdCache`, `Heap`,
  `Netlink`, and the second implementation of the lookup in `Shim` and
  `ShimLookup`.

The kernel, the file system and the guest appear as parameters: functions that
say what opening, looking up or mapping gives, nondeterministic choices for how
much a read or write takes, and steps of a guest that keeps the channel's
contract.  Addresses are 64 bits wide where they may wrap (`ElfMap.Plus`,
`ElfMap.Minus`); other integers are unbounded.

Where the code does less than its comments or the kernel promise, the model
follows the code, and a lemma gives an input:

- after a recursive bind or a pivot, mounts already below the target or put_old
  stay visible there;
- after an fcntl or ioctl command test that fails, the filter goes on comparing
  the command as if it were a system call number;
- substituting "/" for "/" drops a slash, which the tracer avoids by never asking
  for it;
- a put_old given with a final "." keeps it, and the old root then sits at a path
  that no canonical path spells;
- a kill for a command the guest has not begun to claim is written nowhere and
  never again: the command runs to its end and its client is told it was stopped;
- a client that leaves allows a second command beside its own, and a refused
  request sets the id back, so that an abandoned command's status can be reported:
  exactly when the id that is given out next has a directory with a request that
  was claimed before (one that is still in the queue is replaced by the new one);
- an argument with a newline in it arrives cut;
- the padding of the load script does not align it in general;
- a binding more specific than two others, one of them the first of the host list,
  is never found from the host side, and a mount over a bound path and its umount
  may leave another of two equal host paths in front;
- an empty argument vector loses its null in shebang expansion;
- a mark is chopped off a path although its last name merely ends in a dot, which
  makes a recursive bind copy the wrong mounts and a pivot pick the wrong root;
- a segment over the loader's own pages ends the replay;
- a trailing slash leaves no mark on a canonical path, since joining an empty
  component changes nothing.

## Model

| member | source | states |
|---|---|---|
| Paths.ComparePaths | src/path/path.c:1173-1214 | the byte comparison returns the comparison of the two trimmed spellings: equal, either one a component prefix of the other, or neither |
| Paths.CompareRendered | src/path/path.c:1173-1214 | on normalised spellings the byte comparison is exactly equality and the prefix order of component sequences, in both directions |
| Paths.EntryMatchesRendered | src/path/binding.c:146-166 | the prefix test of the lookup cache accepts a normalised path exactly when the entry's components are a prefix of it |
| Paths.LengthMonotone | src/path/binding.c:121-125 | a proper extension of a path has a strictly longer spelling, so sorting by length puts longer prefixes first |
| Paths.JoinPaths | src/path/path.c:158-196 | any number of operands are joined one after the other with one slash between two, and it fails exactly when an intermediate length reaches PATH_MAX |
| Paths.JoinRendered | src/path/path.c:158-196 | joining two normalised spellings concatenates the components, with or without the slash that leads the second |
| Paths.JoinAllRendered | src/path/path.c:158-196 | however many suffixes are joined to a spelling, what fits is the spelling of all the components in a row |
| Paths.SubstitutePathPrefix | src/path/path.c:1264-1314 | the in-place move and copy leave exactly the substituted string in the buffer, or the old one and an error when it would not fit |
| Paths.SubstituteRendered | src/path/path.c:1264-1314 | prefix substitution replaces the components of the prefix, in every case but "/" by "/" with something behind it |
| Paths.SubstitutionRoundTrip | src/path/path.c:1264-1314 | replacing one prefix by another and back gives the original path unless both prefixes are "/" |
| Paths.ChopUndoesFinality | src/path/path.c:431-440 | the marks the canonicaliser puts behind a path are taken off again |
| Paths.ChopKeepsPlainPaths | src/path/path.c:431-440 | a path without a mark survives exactly when its last name does not end in a dot |
| Paths.ChopRendered | src/path/path.c:431-440 | what chopping leaves of any path without a mark: a last name that ends in a dot loses two bytes, or goes, leaving at most its slash |
| Bindings.LookupIsLongestPrefix | src/path/binding.c:180-198 | lookup returns a binding exactly when it is the longest bound component prefix, and nothing exactly when none is a prefix |
| Bindings.TranslateSubstitutes | src/path/binding.c:226-236 | translating is substituting the selected binding's host for its guest path |
| Bindings.DetranslateUndoesTranslate | src/path/path.c:1106-1165 | going to the host and back gives the path whenever the host scan picks the binding the guest lookup picked |
| Bindings.FirstMatchIsLongest | src/path/binding.c:127-166 | in a list sorted by descending length the first entry that is a prefix is the longest |
| Bindings.SortDescending | src/path/binding.c:121-144 | sorting keeps the bindings and orders them by descending path length |
| Bindings.InsertRepresents | src/path/binding.c:248-280 | linking a binding of a new path adds that path to the table |
| Bindings.ReplaceRepresents | src/path/binding.c:248-280 | putting a binding in the place of one with the same path replaces that path's entry |
| Bindings.RemoveRepresents | src/path/binding.c:238-246 | unlinking a binding takes its path out of the table |
| Bindings.PositionKeepsRootLast | src/path/binding.c:248-280 | where a new binding is linked, "/" stays the last entry |
| Bindings.Namespace.BuildGuestBindingCache | src/path/binding.c:92-144 | the cache is a sorted copy of the guest list, built only when it is empty; the table is not touched |
| Bindings.Namespace.FindBestPrefix | src/path/binding.c:146-166 | the cached lookup is the longest-prefix lookup of the table, whatever the list order |
| Bindings.Namespace.GetBinding | src/path/binding.c:180-198 | on the guest side the lookup of the table, on the host side the first match in list order |
| Bindings.Namespace.GetRoot | src/path/binding.c:205-224 | cached or not, the host of the binding of "/", if there is one |
| Bindings.Namespace.SubstituteBinding | src/path/binding.c:226-236 | the spelling of the translated path, or an error exactly when no binding covers it |
| Bindings.Namespace.DetranslatePath | src/path/path.c:1106-1165 | the spelling of the detranslated path, or an error exactly when no host prefix matches |
| Bindings.Namespace.RemoveBindingFromAllLists | src/path/binding.c:238-246 | the binding leaves both lists and the table, and the caches with it; the rest of the host list keeps its order |
| Bindings.Namespace.InsortGuest | src/path/binding.c:248-280 | a binding of a bound path covers it and takes its place; any other is linked, "/" staying last and no two paths equal |
| Bindings.Namespace.InsortHost | src/path/binding.c:248-280 | the binding is linked at its one place on the host side and the guest side is not touched |
| Bindings.Namespace.Insort | src/path/binding.c:297-310 | the table becomes the one with a new binding on top of whatever was at its path, and the host list loses what is covered and gains the new binding at its place |
| Bindings.HostScanInserted | src/path/binding.c:248-280 | once a binding is linked, an older entry of the same host path or of a more specific one answers wherever it did; where nothing answered the new one does; and nothing else changes |
| Bindings.NewAnswersExactly | src/path/binding.c:252-280 | a binding more specific than all others above it answers everything below its host path, except exactly when the first entry of the list and some later one are both above it |
| Bindings.MountKeepsHostAnswers | src/path/binding.c:248-310 | after a bind a host path is found where it was, if its answer was not hidden and an older entry of the bound host path is there, or it was more specific, or the bind does not cover it |
| Bindings.HostUmountUndoesMount | src/path/binding.c:288-310 | a mount of an unbound path and its umount leave the host list as it was |
| Bindings.HostRestoredExactly | src/path/binding.c:288-310 | over a bound path they do exactly when the hidden binding stood where it is put when it comes back |
| Bindings.MountAndUmountReorder | src/path/binding.c:288-310 | a concrete table where they do not, and a host path is found at another guest path afterwards |
| Bindings.Namespace.RemoveBindingAndRestoreCovered | src/path/binding.c:288-295 | the binding goes and the one it covered comes back on both lists, on the host side at its place among the others |
| Mounts.SnapshotRecursiveBindings | src/syscall/enter.c:362-421 | the mounts strictly below the source, in list order; the source is the path the host path detranslates to, chopped |
| Mounts.ReplayRecursiveBindings | src/syscall/enter.c:423-446 | the table and the host list after every mount of the snapshot has been put at its suffix below the target |
| Mounts.EmulateMount | src/syscall/enter.c:730-746 | the table and the host list after a plain or recursive bind of a host path at a target, the chop of the source included |
| Mounts.EmulateUmount | src/syscall/enter.c:918-940 | the table and the host list after an umount, which leaves "/" and paths that are no mount points alone |
| Mounts.RecursiveBindShowsSource | src/syscall/enter.c:362-446 | unless the last name of the source ends in a dot, every path below the target translates as below the source exactly when the source is where the host path is found and every mount that was below the target is covered by a copy or leads where the source does |
| Mounts.RecursiveBindExactly | src/syscall/enter.c:362-446 | the exact condition whatever the source is called: at every nested path, what is copied, what was there and what is missed lead where the source leads |
| Mounts.RecursiveBindUpTo | src/syscall/enter.c:362-446 | the same for one path and everything on the way to it |
| Mounts.RecursiveBindOfDottedSource | src/syscall/enter.c:362-381 | a concrete table where the source "/x." is taken for a marked "/", and the mounts of "/" appear at the target |
| Mounts.RecursiveBindLeavesOlderMountsBelowTarget | src/syscall/enter.c:423-446 | a concrete table where something bound below the target stays visible there |
| Mounts.MountIsLocal | src/syscall/enter.c:730-746 | a mount, recursive or not, changes the translation of no path outside its target |
| Mounts.StepRefinesStackStep | src/path/binding.c:248-310 | one mount or umount acts on the covered chains as a push or pop of one stack per path |
| Mounts.RunRefinesStackRun | src/path/binding.c:248-310 | so does every run of mounts and umounts, at any paths in any order |
| Mounts.StacksDetermineView | src/path/binding.c:248-310 | equal stacks at every path mean equal tables |
| Mounts.UmountUndoesMount | src/syscall/enter.c:918-940 | a mount followed by the umount of its path leaves the table as it was exactly when the path is not "/" |
| Mounts.NestRestoresView | src/syscall/enter.c:918-940 | any properly nested mounts and umounts leave the table as it was |
| Pivot.EmulatePivotRoot | src/syscall/enter.c:748-915 | the loop over a copy of the list computes the pivoted table: roots exchanged, both sides of the new root chopped one by one, put_old with its mark kept, bindings below the new root moved up, the others copied below put_old; and the host list after the same steps |
| Pivot.GuestPath | src/syscall/enter.c:297-303 | what the chop leaves of the new root is the spelling of a path, or keeps a slash and then neither is nor leads to any path |
| Pivot.PivotExposesOldRoot | src/syscall/enter.c:748-915 | every canonical path is found again below put_old as the old tree had it exactly when put_old was given without a final "." (and the new root keeps no slash) and no path there is led elsewhere by what moved up onto it, by what had been bound there, or by a mount at or below put_old that is not copied; otherwise exactly when the new root's own tree happens to show it |
| Pivot.PivotExposesUpTo | src/syscall/enter.c:748-915 | the same exact condition for one path and everything on the way to it |
| Pivot.PivotExposesUntouched | src/syscall/enter.c:748-915 | it is met along a path where nothing was bound at or below put_old on either side of the pivot |
| Pivot.PivotHidesOldRoot | src/syscall/enter.c:799-828 | when put_old ends in "." or the new root keeps a slash, every canonical path translates as after a pivot without a put_old |
| Pivot.PivotToMarkedPutOld | src/syscall/enter.c:799-828 | then put_old and what is below it go on showing what they showed before, exactly when the new root got the right host or the path leads through a binding that moved up |
| Pivot.PivotLosesMarkedPutOld | src/syscall/enter.c:799-828 | pivot_root("/n", "/n/o/."): the old root sits at "/o/.", and "/o/x" is the new root's |
| Pivot.PivotToItselfLosesOldRoot | src/syscall/enter.c:799-828 | pivot_root(".", "."): the old root sits at "/.", and every canonical path is the new root's |
| Pivot.PivotOfSlashedRoot | src/syscall/enter.c:748-915 | a new root that keeps a slash moves nothing: the host of "/" is exchanged and every other binding stays |
| Pivot.PivotKeepsMountsUnderPutOld | src/syscall/enter.c:748-915 | a concrete table where an earlier binding below put_old hides the old root's own contents |
| Pivot.PivotedBelowPutOld | src/syscall/enter.c:748-915 | the exact host of every path below put_old: of the copy and the binding that moved up the later in the list, else what had been bound there unless it went with the new root |
| Pivot.PivotedHost | src/syscall/enter.c:748-915 | the exact host of every path not below put_old: what moved up, what was left behind, what went |
| Pivot.PivotShowsNewRoot | src/syscall/enter.c:748-915 | where no binding left behind comes between, a path outside put_old translates as it did below the new root exactly when the new root got the right host or the path leads through a binding that moved up |
| Pivot.PivotKeepsPlainRoot | src/syscall/enter.c:770-776 | the host is the right one exactly when the path was given with a final "." or its host's last name does not end in a dot |
| Pivot.PivotLosesDottedHost | src/syscall/enter.c:770-776 | a concrete table: after a pivot to a path bound to the host's "/h." the new root is the host's own "/" |
| Pivot.PivotShowsLeftBehind | src/syscall/enter.c:748-915 | and only then: a shadowed path goes where the longest binding left behind sends it |
| Pivot.PivotToRootKeepsView | src/syscall/enter.c:748-915 | a pivot to "/" changes no translation outside put_old exactly when the root keeps its host or the path is bound elsewhere |
| Seccomp.DetranslateInjective | src/syscall/sysnum.c:48-64 | two system calls with the same number in one ABI are the same call |
| Seccomp.MergeFilteredSysnums | src/syscall/seccomp.c:455-483 | merging keeps the values distinct and in place, and each call's flags are the union of what both lists ask for |
| Seccomp.FilterProgram.AddTraceSyscallArgs1 | src/syscall/seccomp.c:115-137 | the emitted sub-filter is the block for a call that is traced on some of its commands, jumps included |
| Seccomp.FilterProgram.StartArchSection | src/syscall/seccomp.c:175-193 | the section header, with the jump over the whole section; where the section starts is kept in 16 bits |
| Seccomp.FilterProgram.EndArchSection | src/syscall/seccomp.c:162-173 | the section ends in its default answer, and one that does not seem to have the announced length is an error |
| Seccomp.CountTable | src/syscall/seccomp.c:209-260 | the counting pass predicts the number of blocks of each kind |
| Seccomp.WriteSection | src/syscall/seccomp.c:209-307 | a section is emitted exactly when its length fits a jump and its start 16 bits, and then is the section of its table |
| Seccomp.SetSeccompFilters | src/syscall/seccomp.c:209-307 | the compiler succeeds exactly when every section fits and starts where 16 bits can say, and then returns the program of the architectures, table and options |
| Seccomp.SectionFitsMeans | src/syscall/seccomp.c:162-193 | a section fits exactly when its numbers are below 2^32 and so is its length and two |
| Seccomp.StartsFitMeans | src/syscall/seccomp.c:162-193 | and all of them begin in range exactly when each begins below 65532 |
| Seccomp.ProgramLength | src/syscall/seccomp.c:209-260 | how long the program of a list that names each call once can get |
| Bpf.AcceptedProgramsReturn | src/syscall/seccomp.c:309-337 | a program that passes the kernel's static check returns an answer for every call: all jumps are forward and in range |
| FilterMeaning.FilterBehaviour | src/syscall/seccomp.c:209-307 | running the compiled program gives, for every call, the answer of a scan of its architecture's blocks, and kills a foreign architecture |
| FilterMeaning.KernelAcceptsFilter | src/syscall/seccomp.c:83-202 | every compiled program passes the kernel's static check exactly when it has at most 4096 instructions, and a bound on the list is enough for that |
| FilterMeaning.FilterMeetsIntent | src/syscall/seccomp.c:209-307 | the program does what the merged table intends for a call, in numbers: trace with the flags in the lower half, hand over, or allow; exactly when the call's argument is not about to be taken for a number |
| FilterMeaning.TracedWithItsFlags | src/syscall/seccomp.c:93-137 | whatever else is listed, a call that is listed and to be traced is answered by 0x7ff0 in the upper half and exactly its flags in the lower |
| FilterMeaning.CommandTakenForNumber | src/syscall/seccomp.c:115-137 | whatever else is listed: with an ioctl or fcntl before another call in the list, one whose command is that call's number is not let through, though the command is not one to be traced |
| FilterMeaning.IoctlCommandTakenForOpenat | src/syscall/seccomp.c:372-400 | on Android, where ioctl stands before openat, this is ioctl(fd, 56) on arm64 |
| FilterMeaning.FcntlCommandTakenForInotify | src/extension/kompat/kompat.c:455-489 | with the kompat extension, which lists fcntl before inotify_init1, it is fcntl(fd, 26) |
| FilterMeaning.EnableSyscallFiltering | src/syscall/seccomp.c:485-517 | the merged table has every list's flags; the program compiled from it traces every call to be traced with the flags the lists give it together, answers every call as the table says, kills a foreign architecture's with 0, and the kernel takes it exactly when it has at most 4096 instructions, as it has for a list within the bound |
| ElfMap.LoadInfo.MapSegment | src/execve/enter.c:51-125 | one header becomes its file pages and, if the bss goes on beyond them, anonymous pages |
| ElfMap.LoadInfo.MapSegments | src/execve/enter.c:51-125 | the mappings of all headers, in header order |
| ElfMap.ComputeLoadAddresses | src/execve/enter.c:290-326 | the executable and its interpreter are shifted to their bases, or not at all |
| ElfMap.ClearLengthIsAtMostOnePage | src/loader/loader.cpp:24-49 | clear_length never exceeds a page, so the loader's guard never drops a clear, and is non-zero exactly when there is a bss |
| ElfMap.ProtectionsAreTheHeaders | src/execve/enter.c:85-96 | every page of a segment may be read, written and run as its header says |
| ElfMap.SegmentImage | src/execve/enter.c:51-125 | carrying out one segment's mappings leaves its file bytes and its zeros where they belong and nothing else changed outside its pages |
| ElfMap.LoadedImage | src/execve/enter.c:51-125 | carrying out any number of segments leaves all of their images, if no later segment's pages reach into an earlier one's bytes |
| ElfMap.AscendingNeverClobbers | src/execve/enter.c:51-125 | headers in ascending order that end at or below the next one's page never overwrite one another |
| ElfMap.ObjectMappings | src/execve/enter.c:290-305 | the shifted mappings of an object, carried out, are its segments put down one by one |
| LoadScript.ScriptWriter.TranscriptMappings | src/execve/exit.c:145-165 | the words of one statement for each mapping, appended at the cursor |
| LoadScript.TransferLoadScript | src/execve/exit.c:167-288 | the block below the stack pointer is exactly as long as was allocated, and holds the script and then the strings |
| LoadScript.ScriptStrings | src/execve/exit.c:196-265 | every address in the script points at its string |
| LoadScript.PaddingAligns | src/execve/exit.c:199-203 | the padding puts the strings at a multiple of 16 exactly when they would be at a multiple of 8 without it |
| LoadScript.StackMadeExecutable | src/execve/exit.c:196-283 | the page of the stack pointer is made executable exactly when the executable or its interpreter asks for it |
| LoadScript.DecodeEncode | src/loader/script.h:7-42 | a statement is read back from its words, whatever follows |
| Loader.Process.Clear | src/loader/loader.cpp:24-49 | the byte and word loops zero exactly the range, or nothing when the guard refuses it |
| Loader.Process.Execute | src/loader/loader.cpp:78-146 | one statement acts as the machine's step, failures included |
| Loader.Process.Start | src/loader/loader.cpp:66-203 | the loop reads its statements out of the memory it maps over; it starts the program with the replayed memory, base and auxiliary vector, exits with 182, or crashes |
| Loader.RunHeld | src/loader/loader.cpp:66-203 | replaying a script that stands in memory is running the script, as long as it maps over neither itself nor the loader |
| Loader.MappingOverLoaderCrashes | src/loader/loader.cpp:97-119 | a mapping over the loader's own pages, as of a file linked at LOADER_ADDRESS, is the end of the replay |
| Loader.PatchAuxv | src/loader/loader.cpp:148-188 | after the walk over argv, environment and auxiliary vector a reader finds, tag by tag: 3 the program headers, 4 their size, 5 their number, 7 the base, 9 the entry point, 31 argv[0], every other tag as it was; nothing but values of the vector has changed |
| Loader.PatchedReads | src/loader/loader.cpp:164-188 | the same of the vector as a function, where an entry was present before |
| ProgramLoad.WrittenIsInMemory | src/execve/exit.c:264-283 | the words and strings written to the stack read back from its bytes |
| ProgramLoad.NamesOpen | src/execve/exit.c:196-265 | the addresses in the script open the files of that name, the second one although the first object has been mapped by then |
| ProgramLoad.RebasedDescribes | src/execve/enter.c:290-326 | with or without a load bias the mappings of an object are those of its headers at its base |
| ProgramLoad.ApartNeverClobbers | src/execve/enter.c:307-326 | two objects in ascending order and apart from one another never overwrite one another's bytes |
| ProgramLoad.ScriptLoadsProgram | src/loader/loader.cpp:66-203 | from the block on the stack to a running program: replayed, it leaves every segment of the executable and its interpreter in place, zeros included, and itself and the loader untouched, if no segment reaches into another's bytes, the block or the loader |
| ProgramLoad.LoadProgram | src/execve/exit.c:167-288 | all of it in one: from the program headers over mappings, load addresses, the block and its bytes to the replay and the patched auxiliary vector, every segment is in place; the program starts at the entry point of the interpreter or its own, and reads from the vector numbers of its headers: e_phoff and e_entry moved by the load bias, e_phentsize, e_phnum, and where the interpreter begins |
| ProgramLoad.ObjectNumbers | src/execve/enter.c:290-326 | an object that may stand anywhere and begins in the first page is moved to 0x3000000000, an interpreter to 0x3f00000000, any other stays: its first page and its entry point in numbers |
| Canon.PopComponent | src/path/canon.c:61-68 | the spelling of the parent, "/" being its own |
| Canon.NextComponent | src/path/canon.c:70-82 | the next component, the rest behind its slashes, and whether it was the last one and how it ended |
| Canon.Resolver.Canonicalize | src/path/canon.c:121-242 | the recursive walk computes the specified resolution, errors included, and puts "/." behind a path that ended in "." |
| CanonMeaning.ResolveAgrees | src/path/canon.c:121-242 | it gives exactly what an iterative POSIX-style walk gives: the same path after the same number of links, or the same error, a name, path or link target that is too long included; and it gives up on links only where that walk is not done after as many as the depth has left |
| CanonMeaning.ResolveIsTheWalk | src/path/canon.c:121-242 | wherever the walk is done within the limit on links, the result is its answer, path or error |
| CanonMeaning.ResolveMarks | src/path/canon.c:121-242 | the mark is that of the caller's own last name and trailing slash, whatever links were followed |
| CanonMeaning.ResolveFromNowhere | src/path/canon.c:131-145 | without an absolute base the caller's path starts at "/", a link's relative target is an error |
| CanonMeaning.PosixSplit | src/path/canon.c:209-234 | walking a link's target and then the rest is walking both spliced together |
| CanonMeaning.ResolveLinks | src/path/canon.c:221-234 | a call that succeeds followed fewer than two to the depth left links |
| CanonMeaning.SelfLinkIsGivenUp | src/path/canon.c:121-129 | a link to itself is given up on, whatever the limit |
| CanonMeaning.TrailingSlashLeavesNoMark | src/path/canon.c:232-242 | a slash behind the last name is noticed, and the path is spelled as without it |
| CanonMeaning.ResolveNormalises | src/path/canon.c:121-242 | the result has no empty, "." or ".." component, and no unresolved link on the way |
| CanonMeaning.ResolveWithoutLinks | src/path/canon.c:121-242 | without links the result is the fold of the components |
| Framing.StrtolDecimal | src/backend/um_session.c:672-686 | a printed number is read back, stopping right behind it |
| Framing.LineReader.ReadLine | src/backend/um_session.c:414-446 | a line with everything behind it kept, "not yet" with nothing lost, or a failure only where the whole stream has no line that fits |
| Framing.LineReader.ReadExact | src/backend/um_session.c:380-407 | exactly the bytes asked for, buffered ones first, if there are that many |
| Framing.Client.ReadPayload | src/backend/um_session.c:584-612 | exactly the payload, out of the buffer and the socket |
| Framing.Client.CopyPayload | src/backend/um_session.c:670-684 | a payload goes to its stream chunk by chunk; one cut short goes there in whole chunks only |
| Framing.Client.ReceiveResult | src/backend/um_session.c:615-702 | whatever the reads were, the client delivers and returns what the whole stream says |
| FramingMeaning.Wire.SendFrame | src/backend/um_session.c:359-373 | header and payload reach the socket whole and in order, whatever each send takes |
| FramingMeaning.FrameReceived | src/backend/um_session.c:615-702 | one frame comes out as its payload, on its stream |
| FramingMeaning.FramesDelivered | src/backend/um_session.c:615-702 | any frames ending in EXIT come out as the joined payloads of each stream and the status, whatever follows |
| FramingMeaning.SendRequest | src/backend/um_session.c:489-557 | the request reaches the socket whole |
| FramingMeaning.ExecHeader | src/backend/um_session.c:1328-1350 | the header is read back as it was written exactly when the length is one the daemon takes; every timeout a client computes is |
| FramingMeaning.AcceptRequest | src/backend/um_session.c:1589-1627 | unless header or payload are too long in coming, the answer is what the whole stream asks for; late or not, no command is taken that the stream does not ask for |
| FramingMeaning.AcceptPayload | src/backend/um_session.c:1536-1582 | exactly the payload, buffered bytes first, or nothing: because it is not all there, or, only where it was not all buffered, because a poll timed out |
| FramingMeaning.RequestArrives | src/backend/um_session.c:1516-1582 | length, timeout and payload arrive as they were sent exactly when the payload is within the limit |
| FramingMeaning.WordsAreAskedFor | src/backend/um_session.c:1589-1627 | a connection asks for the end, or for the state, exactly when its first line is STOP, or STATUS |
| FramingMeaning.RefusalLine | src/backend/um_session.c:615-702 | BAD and BUSY end a client with 125, whatever comes behind |
| FramingMeaning.LargeExitLine | src/backend/um_session.c:615-702 | so does a status above 255 |
| FramingMeaning.BrokenHeader | src/backend/um_session.c:644-662 | and a header of 256 bytes or more, or a stream that ends before one does |
| FramingMeaning.CutPayload | src/backend/um_session.c:668-686 | a payload that is cut short is delivered in whole chunks of 4096, and the client ends with 125 |
| Framing.CountReads | src/backend/um_session.c:668-684 | a data header announces the number in it, a negative one nothing |
| FramingMeaning.BrokenRequest | src/backend/um_session.c:1599-1602 | a connection is dropped without an answer exactly when its first line does not end or has 256 bytes or more |
| FramingMeaning.MillisMeans | src/backend/um_session.c:500-503 | a timeout is sent in whole milliseconds, rounded down; one that is not positive, or longer than a year, as none |
| GuestLoop.ReadRequest | src/backend/um_session_loop.sh:245-281 | the loop over the lines of a request finds the directory and the arguments the line format says |
| GuestLoop.RequestReadsBack | src/backend/um_session_loop.sh:245-281 | the guest reads the command the client wrote exactly when it has an argument and neither directory nor arguments have a newline in them |
| GuestLoop.NewlineCutsAnArgument | src/backend/um_session_loop.sh:262-270 | an argument of two lines is cut after the first, the second being taken for a size |
| Daemon.UmDaemon.EndJob | src/backend/um_session.c:1238-1286 | the client is told 124, 128 plus its signal, the status or 125, and the job's directory is gone |
| Daemon.UmDaemon.StartJob | src/backend/um_session.c:1478-1509 | a new id is queued and becomes the running job with its clocks set, or the client is refused, the id set back to 0 and the refused id's directory left to be looked at |
| Daemon.UmDaemon.PublishKill | src/backend/um_session.c:1135-1155 | the kill is written exactly when the command's directory is there, and counts as sent either way |
| Daemon.UmDaemon.JobInput | src/backend/um_session.c:1458-1475 | the first signal in range sends a kill, nothing else does |
| Daemon.UmDaemon.PollJob | src/backend/um_session.c:1380-1455 | the poll computes the specified step: claim, done, deadline, the two ways of giving up, the supervisor's end |
| Daemon.UmDaemon.TurnOnce | src/backend/um_session.c:1720-1769 | one turn of the loop is the specified turn, which ends the loop exactly when the supervisor is gone under a running job; requests are accepted only when no client waits |
| DaemonSafety.EveryRunIsSafe | src/backend/um_session.c:1238-1509 | a monitor that knows nothing of the daemon accepts every run in which clients stay and no command is queued under an id whose directory holds an earlier request, refused requests included |
| DaemonSafety.QueueableIsGuarded | src/backend/um_session.c:1478-1500 | without a refusal that never happens |
| DaemonSafety.OneExitPerCommand | src/backend/um_session.c:1238-1256 | in an accepted log no command's client is told twice |
| DaemonSafety.OneKillPerCommand | src/backend/um_session.c:1423-1429 | nor is there a second attempt to stop a command, whether the first got through or not |
| DaemonSafety.EveryClientIsToldOnce | src/backend/um_session.c:1238-1256 | in every run a command's client has been told exactly once when the command is no longer the running one, and not at all before |
| DaemonSafety.IdsIncrease | src/backend/um_session.c:1478-1500 | as long as no request is refused ids are given out in increasing order |
| DaemonSafety.ReportedIsOwn | src/backend/um_session.c:1353-1377 | a reported status was written by a guest that had claimed the command after it was queued |
| DaemonSafety.AnswerSaysWhy | src/backend/um_session.c:1238-1256 | a client is told 124 or a signal exactly when the command was to be stopped, the status exactly when it was finished and not to be stopped, and 125 for giving up exactly when neither |
| DaemonSafety.KillReachesExactly | src/backend/um_session.c:1135-1155 | an attempt to stop a command gets through exactly when its directory had been made and not removed since |
| DaemonSafety.KillInTurn | src/backend/um_session.c:1423-1429 | per turn: a kill is written exactly when there is reason for one and the directory is there, and lost exactly when there is reason and it is not |
| DaemonTimes.EveryWaitEnds | src/backend/um_session.c:1380-1455 | in every run, for a command queued by a turn at a time with a timeout: a later turn after the guest published the end, 15 s past the timeout, 30 s on without a claim, or without a kernel leaves its client told, whatever happened in between |
| DaemonTimes.EveryDeadlineIsKept | src/backend/um_session.c:1423-1429 | by the first turn at which the timeout is over the client has been told, or there was one attempt to stop the command, whose kill file is there exactly when the guest had begun to claim it by then |
| DaemonTimes.StopHasReason | src/backend/um_session.c:1423-1475 | and not before: a command is stopped only in a turn that comes when its timeout is over or brings a signal, never for a timeout of 0; its client is told of a timeout or a signal only after such a turn |
| DaemonTimes.EndHasReason | src/backend/um_session.c:1380-1455 | a turn ends a running command, telling its client, exactly when it has one of these reasons |
| DaemonTimes.LoopEndsExactly | src/backend/um_session.c:1380-1455 | the loop ends under a running command exactly when the kernel is gone and the command would otherwise go on |
| DaemonTimes.StatusReads | src/backend/um_session.c:1353-1377 | a status file is read as its number up to 255, anything else as 125 |
| DaemonTimes.SignalReads | src/backend/um_session.c:1458-1469 | a client's line asks for a signal exactly when it names one from 1 to 127 |
| DaemonSafety.SecondCommandExactly | src/backend/um_session.c:1719-1769 | a turn queues a second command beside one whose client has left exactly when nothing ends that command and a request comes in that can be queued |
| DaemonSafety.NoSecondCommandBesideAClient | src/backend/um_session.c:1719-1769 | beside a command whose client is there no turn queues any |
| DaemonLimits.KillBeforeClaimIsLost | src/backend/um_session.c:1423-1429 | a concrete run: the deadline passes before the guest begins to claim, the command runs to its end and its client is told 124 |
| DaemonLimits.SignalBeforeClaimIsLost | src/backend/um_session.c:1458-1469 | the same for an interrupt, whose client is told 130 |
| DaemonLimits.LeavingAllowsASecondCommand | src/backend/um_session.c:1720-1735 | a concrete run: the client leaves and a second command starts beside the first |
| DaemonLimits.RefusalAllowsAStaleStatus | src/backend/um_session.c:1496-1502 | a concrete run: after a refusal an id comes back and an earlier command's status is reported |
| DaemonLimits.ReportsAreOwnExactly | src/backend/um_session.c:1293-1331 | while clients stay: nobody can ever be told another command's status, in the run or in any continuation without new requests, exactly when no command is queued under an id whose directory holds a request claimed before |
| Buffer.UmBuffer.Reserve | src/backend/um_supervisor.c:2128-2162 | room for more without losing or reordering a byte; it fails only beyond the limit or for want of memory |
| Buffer.UmBuffer.Grow | src/backend/um_supervisor.c:2148-2156 | the doubling ends with enough, within the limit once past the first capacity |
| Buffer.UmBuffer.Append | src/backend/um_supervisor.c:2164-2172 | all of the bytes behind the others, or nothing |
| Buffer.UmBuffer.Consume | src/backend/um_supervisor.c:2174-2181 | the first bytes go, in order |
| Buffer.UmBuffer.Flush | src/backend/um_supervisor.c:2189-2204 | for any answers of write(2): what was written is the prefix of the contents they took, and a failure is reported exactly when one of them was; over every run appended is flushed followed by contents |
| Buffer.FailureIsTheFirst | src/backend/um_supervisor.c:2189-2204 | that is exactly when some write fails before any blocks and before those in front of it took everything |
| DirfdCache.Cache.SlotOf | src/path/path.c:561-580 | the hint never changes the answer: the live slot of the key, or none |
| DirfdCache.Cache.Remember | src/path/path.c:619-648 | exactly one slot changes, the key's own or the next in turn, and its old descriptor is closed |
| DirfdCache.Cache.Attach | src/path/path.c:650-671 | a duplicated descriptor ends up in exactly one slot, or closed |
| DirfdCache.Cache.ForgetRange | src/path/path.c:597-607 | the live slots of the range go and no other |
| DirfdCache.Cache.Copy | src/path/path.c:673-689 | the cache stays right about everything it remembers when dup copies an entry |
| DirfdCache.Cache.Inherit | src/path/path.c:691-712 | and when fork copies a process's entries |
| DirfdCache.InheritedMeans | src/path/path.c:691-712 | the ideal table after fork: the child knows exactly what its parent knows, every other process what it knew |
| DirfdCache.Cache.CloseRange | src/path/path.c:597-617 | and when descriptors are closed |
| DirfdCache.Replaced | src/path/path.c:520-527 | putting a slot in another's place keeps keys unique and every open descriptor in exactly one live slot |
| ProcFdCache.PathCache.Remember | src/syscall/exit.c:54-96 | the entry is there afterwards, in the slot of its key or the next in turn, no other slot changes, and the path cache stays right |
| ProcFdCache.PathCache.ForgetRange | src/syscall/exit.c:116-133 | when a range of descriptors is closed |
| ProcFdCache.PathCache.Inherit | src/syscall/exit.c:152-168 | when fork copies a process's entries |
| ProcFdCache.PathCache.Copy | src/syscall/exit.c:170-190 | and when dup copies one, which is known under both descriptors then, or forgets the target of a source that has been forgotten |
| Shim.Serialise | src/cli/cli.c:409-428 | the space reserved is always enough: nothing of the binding map is cut off |
| Shim.ParseBinds | stat-shim/shim.c:143-175 | the entries of the text, line by line, up to the table's size |
| Shim.EntryMeans | stat-shim/shim.c:153-169 | a line is an entry exactly when its first tab stands between two halves that are neither empty nor too long |
| Shim.BindingsSurvive | stat-shim/shim.c:143-175 | parsing the serialised map gives back the bindings, as many as there is room for |
| ShimLookup.Table.ToHost | stat-shim/shim.c:222-287 | the answer comes from the remembered entry if it covers the path, else from the scan, and what is remembered follows |
| ShimLookup.ScanIsLookup | stat-shim/shim.c:242-254 | the shim's scan finds the binding the tracer's lookup finds |
| ShimLookup.ShimAgrees | stat-shim/shim.c:256-287 | the shim's answer is the tracer's translation, but for a slash behind a binding's own host path |
| ShimLookup.ShimAgreesAsParsed | stat-shim/shim.c:143-287 | so it is on the table the shim reads out of the environment, for up to 512 bindings without a tab or newline where they separate |
| ShimLookup.RememberedIsScanned | stat-shim/shim.c:236-241 | the remembered entry gives the scan's answer for every path it covers exactly when no entry lies strictly inside it |
| Heap.Tracee.Request | src/syscall/heap.c:20-143 | the reported break is base plus size, inside the one mapping; a granted request moves it to the requested address, any other leaves it |
| Heap.PagesAndErrors | src/syscall/heap.c:105-130 | lengths are rounded up to whole pages and no further, and an error is one of the 4095 values below the top |
| Heap.Serve | src/syscall/heap.c:20-143 | any number of requests each do what brk(2) promises, whatever the kernel answers |
| Aoxp.Array.Fetch | src/execve/aoxp.c:193-230 | the pointers up to and with the null, or a fault |
| Aoxp.Array.WriteStrings | src/execve/aoxp.c:148-163 | the first entries replaced by strings |
| Aoxp.Array.Push | src/execve/aoxp.c:232-295 | whoever reads the pushed vector finds exactly the strings the entries stood for, replaced or kept; nothing is pushed when nothing was replaced |
| Aoxp.PushedMeans | src/execve/aoxp.c:266-290 | every replacement gets an address of its own, where its own text stands |
| Shebang.ExtractShebang | src/execve/shebang.c:21-75 | the interpreter and the trimmed rest of the line, or none |
| Shebang.ShebangMeans | src/execve/shebang.c:21-75 | there is one exactly when the head begins with "#!"; its line is then, but for blanks, the interpreter, which has none in it, and the argument, trimmed at both ends |
| Shebang.FollowChain | src/execve/shebang.c:77-132 | the loop follows the chain of interpreters, within the limit, and grows the vector by each hop |
| Shebang.GrownReady | src/execve/shebang.c:109-128 | after any number of hops the entries stand for the innermost interpreter's words first, then the script, then the old arguments but the first |
| Shebang.ExpandShebang | src/execve/shebang.c:77-141 | the program at the end of the chain, and a vector in memory that reads as the chain demands |
| Shebang.NullSurvives | src/execve/shebang.c:109-128 | the vector keeps its null exactly when there was a first argument, or no interpreter |
| Netlink.Reply.AddAttr | src/syscall/enter.c:1374-1391 | an attribute is appended aligned and with its true length, or left out when it does not fit |
| Netlink.Reply.Build | src/syscall/enter.c:1393-1479 | a message is appended with the length that came out, or nothing; the buffer stays aligned and within its size |
| Netlink.AttrsRead | src/syscall/enter.c:1374-1391 | a reader that walks by the attributes' own lengths gets back the attributes |
| Netlink.MessageIsBlock | src/syscall/enter.c:1428-1438 | a message is as long as its header says |
| Netlink.HeaderReads | src/syscall/enter.c:1428-1438 | length, kind, flags, sequence number and port read back at their places, and the body behind them |
| Netlink.DatagramLength | src/syscall/enter.c:2026-2042 | the loop computes where the datagram ends |
| Netlink.Socket.Drain | src/syscall/enter.c:2044-2063 | repeated receiving hands out the cuts of the reply and leaves nothing pending |
| Netlink.CutConserves | src/syscall/enter.c:2044-2063 | the datagrams joined are the reply, and none is empty |
| Netlink.ReplyWithDone | src/syscall/enter.c:2026-2042 | messages and a closing DONE are two datagrams, cut between messages, the DONE alone |
| Netlink.ReplyWhole | src/syscall/enter.c:2026-2042 | messages without a DONE are one datagram |
| Netlink.Dump | src/syscall/enter.c:1393-1502 | what any run of build calls and a closing DONE leave in the buffer is received as the messages there was room for in one datagram, and the DONE, if there was room, in another |

## Left out

- Allocation failures, and PATH_MAX failures outside `Paths`, `Canon` and `ShimLookup`.
- Extensions, procfs special cases and `readlink_proc`, f2fs probing, glue creation, openat2 resolve flags: paths are outside /proc and no extension answers.
- The alias heuristics for "/oldroot" and "/newroot", the cwd alias, and the rewriting of the current directory in pivot_root.
- Attribute provenance in emulate_mount (readonly and mount flags), tmpfs and proc directories it creates, and the resolution of its source.
- The list of pending bindings, `initialize_bindings` and the bindings it induces.
- Specificity order of the binding list itself: the code does not keep it; longest match comes from the cache.
- Canon.Resolver.Canonicalize: does not say what the buffer holds after an error, or when "/." does not fit behind the path; when lstat fails, the file type the code then tests is uninitialised, and the model lets the file system choose it.
- CanonMeaning.ResolveAgrees: says when links may be given up on, not when they must; ResolveLinks bounds from above how many a success can have followed.
- DaemonSafety.EveryRunIsSafe: does not cover runs in which a client leaves or a taken id is given out, because the code then breaks the properties; DaemonLimits has the runs that show it.
- Daemon.UmDaemon.EndJob: removing a directory is one step, as is each step of the guest; a file the guest writes in between, which keeps the directory from being removed, is not modelled, nor are the loop's own markers in state/.
- Daemon.UmDaemon.PollJob: does not model the streaming of stdout and stderr, whose completeness the code does not promise; one time stands for the several reads of the clock in a poll.
- Mounts.EmulateMount: does not cover a target such as "/t/x." whose last name of two bytes ends in a dot: the chop leaves "/t/", an entry that covers a binding of "/t" and that the lookup never finds.
- Mounts.EmulateUmount: does not cover such a target either, for which the code finds only an entry left by such a mount and otherwise does nothing.
- Pivot.EmulatePivotRoot: keeps hosts as sequences of names; where the chop leaves a slash behind the new root's host, the code's spelling of host paths has one slash more, and its detranslation through that binding one slash less.
- Daemon.UmDaemon.StartJob: a request that cannot be queued has got its file names by then; a channel path that is missing or too long, which refuses every request, is not modelled.
- Daemon.UmDaemon.TurnOnce: does not model the boot deadline, STOP, a failing poll, or the checks of ownership and supervisor at the end of a turn, which leave the loop.
- DaemonTimes.EveryWaitEnds: covers the runs EveryRunIsSafe covers; times are what the clock shows in a turn, and never negative.
- ProgramLoad.ScriptLoadsProgram: does not model page protections, faults beyond the end of a file, or the alignment of the stack; mappings are granted as a premise, and the words above the stack pointer are an array of their own.
- Loader.Process.Start: reads a mapping statement once; where a mapping covers the very statement that asks for it, the code reads some of its fields again from the new pages.  Does not model PR_SET_NAME, the traced start's execve, or the jump itself.
- LoadScript.TransferLoadScript: does not model the 16-byte alignment its padding aims at, because it does not reach it in general.
- FilterMeaning.FilterMeetsIntent: does not model the installation of the filter, its listener, or the netlink probe that selects a list.
- Heap.Tracee.Request: does not model two threads whose requests overlap.
- Aoxp.Array.Push: does not model negative resizes, or limits on fetched vectors.
- Shebang.ExtractShebang: does not model a terminator inside the head of a file.
- Netlink.Reply.Build: does not model the fields of the fixed parts, which are given as bytes; DONE and error replies are messages without attributes.
- Framing.LineReader.ReadLine: does not model a terminator inside a line.
- Framing.Client.ReceiveResult: does not model the signals a client forwards, or a standard output that cannot be written.
- DirfdCache.Cache.Attach: does not model device and inode numbers; whether fstat succeeds is a parameter.
- ShimLookup.Table.ToHost: does not model relative names, or the interposed calls around it.
- The fast path that joins a cached directory and one component, and the checks before a cached host descriptor is used.
- Registers, process_vm access, user notifications, terminals, fork, the watchdog, sockets, locks and temporary files.
- The ptrace and wait emulation, the QEMU runner, command-line parsing, installation and the user interface: little to prove, or tables that are not part of this model.
