# A verified model of st-spy

st-spy is a sampling profiler for OpenSmalltalk VMs. It stops a running VM for a
moment, copies registers, stacks and the Cog frame chain, lets the VM go on, and then
turns addresses into method names by decoding the VM's own memory, which may be
changing or corrupt. The traces go to writers that must not lose or invent frames.

This project models the parts of that program where the reasoning is hard, and proves
what they promise:

- **Decoding a foreign heap** (`TargetMemory`, `SpurObjects`, `MethodNames`,
  `NamedMethods`, `CogMethods`, `HelperNames`): byte objects, selectors, class names and
  CogMethod headers, read from an arbitrary partial memory. Round trips with written
  encodings; bounded work and a fixed shape of names on every heap, cyclic ones included;
  how far blocks are named after their methods.
- **The method-zone index** (`RangeIndex`, `JitEntryTable`, `MethodZone`, `ZoneTheorems`,
  `WalkTheorems`, `StillProcess`, `ZoneLayout`, `Observations`, `Symbolizer`): the
  resumable forward walk, the backward scan, the sorted index and the answer cache. Memory
  may change between any two header reads; each read of a call sees a memory of its own.
- **The Cog frame chain** (`CogFrames`).
- **From addresses to a finished stack** (`NativeSymbols`, `SymbolReloads`, `SmalltalkSpy`,
  `StackStitching`, `StackSnapshots`): symbolization through a bounded cache, naming,
  stitching, trimming, and unwinding from a copy after the VM has resumed.
- **Writers** (`ChromeTraces`, `Speedscope`, `TopStatistics`).
- **Sampling** (`Sampler`, `SamplingTimer`): the notify/collect protocol in every
  interleaving, and the lateness of the compensating timer.

What the source updates in place is a class here, proved against functions on values
(the specification); the theorems are about those functions. `Symbolizer.SmalltalkSymbolizer`
holds the fields of the source's symbolizer and its methods keep the zone invariant.

Addresses and lengths are unbounded naturals. Where the source checks, saturates or wraps
at 64 bits the bound is written out; its plain additions are assumed not to overflow. A
read that fails in the source is `None`. The flags, formats and offsets are those of the
64-bit Spur image format as the source uses them.

Where the code and its own documents differ, the code is followed:

- `doc/callout-stack-stitching.md:116-119` says that Cog frames are dropped when they
  duplicate native frames *before* the boundary. The code collects the names of the whole
  native stack before cutting it (`src/smalltalk_spy.rs:237-257`), so a caller can vanish:
  `StackStitching.CutCallerIsLost` shows one, `StackStitching.NothingLostUnlessCut` gives
  the exact condition for all stacks and chains. The end of the run of Smalltalk frames
  after the boundary is computed there but not used; everything after the boundary is cut.
- The same document (lines 122-124) promises one shared root for all stitched stacks. With
  native roots hidden it is cut again, from `StackStitching.SharedRootIsCut` and all others
  but those that `StackStitching.TrimmingUndoesTheSharedRoot` describes.
- Chrome events are matched by process and thread, but the writer remembers the last trace
  by thread id alone: `ChromeTraces.RunIsFaithful` says exactly when that is harmless.
- A pc that was asked about before the zone reached it keeps its first answer
  (`ZoneTheorems.CachedAnswerIsKept`), as in `WalkTheorems.AnswerBeyondZoneGoesStale`;
  `ZoneTheorems.FreshExactlyWhenIndexed` says when that answer is out of date.
- A zone walked while it grows is indexed in full exactly under the condition of
  `WalkTheorems.IncrementalAgainstScratch`; `WalkTheorems.BlockedZoneFallsShort` is a zone
  that is not.
- The frame walk looks a JIT method up forty bytes after its start, although a block may be
  no longer than that: `CogFrames.JitFrameIsNamed`, `CogFrames.BareMethodIsMisnamed`.
- A block is named after the method it is in only from some blocks deep, on the class side
  from one: `NamedMethods.WellFormedMethodIsNamed` has the exact depths,
  `NamedMethods.InnerBlockLosesClass` a heap.
- A reload does not empty the symbol cache, so a changed answer is not shown:
  `SymbolReloads.ReloadedNameIsStale`; `SymbolReloads.ReloadIsUnnoticedExactly` says when
  that cannot be noticed.
- Names that start with "Cog " or "JIT " are taken for helpers; which decoded names those
  are, class-side methods of a class Cog among them, is `HelperNames.HelperNamesExactly`.

## Model

| member | source | states |
|---|---|---|
| SpurObjects.ByteObjectRoundTrip | src/smalltalk_symbolizer.rs:889-928 | any printable string of 1 to 512 characters, written as a byte object with any free header bits, is read back |
| SpurObjects.ByteObjectShape | src/smalltalk_symbolizer.rs:889-928 | whatever is read is printable, 1 to 512 long, of the length that slots and format state, and lies in memory after the header |
| SpurObjects.ReadsExactlyEncodings | src/smalltalk_symbolizer.rs:889-928 | below the slot overflow mark, a string is read if and only if an encoding of it is in memory |
| SpurObjects.FieldsAreRead | src/smalltalk_symbolizer.rs:889-947 | of a written object of up to 254 fields the format, the size and every field are read back |
| SpurObjects.LongObjectSize | src/smalltalk_symbolizer.rs:930-948 | an object of many slots has their number in the word before its header, above the lowest byte |
| MethodNames.MaybeSelectorOfMethod | src/smalltalk_symbolizer.rs:662-702 | terminates on any heap after visiting at most one object more than twice the levels left |
| MethodNames.ClassNameOfMethod | src/smalltalk_symbolizer.rs:704-738 | terminates on any heap within the visits of the recurrence, and returns a class name with at most as many " class" suffixes as levels remain |
| MethodNames.ClassNameFromMethodLiteral | src/smalltalk_symbolizer.rs:740-785 | the same bounds for one literal: class object, binding, then up to eight fields |
| MethodNames.ClassNameFromClassObject | src/smalltalk_symbolizer.rs:787-831 | the same bounds for a class object, each metaclass level adding one suffix |
| MethodNames.NamingWorkIsBounded | src/smalltalk_symbolizer.rs:662-831 | naming one method visits at most 59365 objects for the class and 11 for the selector, on every heap |
| MethodNames.DecodedClassNameShape | src/smalltalk_symbolizer.rs:704-831 | a decoded class name is a class name string followed by " class" zero, one or two times |
| MethodNames.QualifiedNameIsInjective | src/smalltalk_symbolizer.rs:520-523 | `Class>>selector` determines class and selector, although selectors may contain `>` |
| NamedMethods.WellFormedMethodIsNamed | src/smalltalk_symbolizer.rs:662-831 | a method, or a block nested in one, gets the method's selector from up to four blocks deep and its class from up to three, on the class side from one; from further in exactly nothing is found, when no other literal can be taken for the name |
| NamedMethods.SelectorExactlyInReach | src/smalltalk_symbolizer.rs:662-702 | the selector, last but one or in the method's additional state, is found through at most four blocks that each have two literals, and otherwise nothing is, unless a block's own literals name something |
| NamedMethods.ClassExactlyInReach | src/smalltalk_symbolizer.rs:704-831 | the class is found through three blocks, or one on the class side, and otherwise none is, unless other literals name one |
| NamedMethods.BindingAt | src/smalltalk_symbolizer.rs:740-831 | the binding of a class is named at literal depths up to four, that of a metaclass up to two, and not beyond |
| NamedMethods.LastOfFourDecides | src/smalltalk_symbolizer.rs:704-738 | of the last four literals the last one that names a class decides, at every depth down to the fourth |
| NamedMethods.FirstFieldNamesLiteral | src/smalltalk_symbolizer.rs:740-785 | a literal named neither as a class nor as a binding is named after the first of its first eight fields that has a name |
| NamedMethods.ForeignStateNamesNothing | src/smalltalk_symbolizer.rs:662-702 | additional state that belongs to another method gives no selector |
| NamedMethods.InnerBlockLosesClass | src/smalltalk_symbolizer.rs:704-831 | a concrete heap in which the block two deep in a class-side method has its selector and no class, and the block around it has both |
| CogMethods.ReadCogMethodAt | src/smalltalk_symbolizer.rs:474-535 | a decoded range starts at its address, ends eight-aligned, and spans at least a header and at most 64 KiB and six bytes, whatever the seven reads see (for its name see `DecodedNameShape`) |
| CogMethods.HeaderRoundTrip | src/smalltalk_symbolizer.rs:474-535 | a written header is decoded to its start, its rounded end and the name its fields give |
| CogMethods.HeaderSelectorIsUsed | src/smalltalk_symbolizer.rs:490-528 | by bits 8 to 10 of the flag word the text under the header's selector is shown after the class (or `JIT method`) for 5 and 6, after `JIT PIC` for 3, `JIT closed PIC` for 2, and `JIT frame` for 0, 1, 4 and 7 |
| CogMethods.SelectorAndClassAreUsed | src/smalltalk_symbolizer.rs:490-523 | a block of type 5 or 6 with its selector in the header gets it after `Class` or `Class class` of the method it is in, and from too deep as of no class |
| CogMethods.DecodedNameShape | src/smalltalk_symbolizer.rs:496-528 | whatever memory holds and however it changes between the reads, a decoded header is called "JIT frame", or by a selector after one of four words or after a class name with at most two suffixes |
| HelperNames.HelperNamesExactly | src/smalltalk_spy.rs:406-414 | of the names a decoded header can get, exactly the generic one, those of blocks without a class, and those of the class side of a class called Cog or JIT are not taken for methods |
| HelperNames.CogClassIsHelper | src/smalltalk_spy.rs:406-428 | a method `Cog class>>run` is a Smalltalk frame that trimming does not stop at |
| HelperNames.DecodedNameIsNoBoundary | src/smalltalk_spy.rs:359-404 | no name a decoded header can get is taken for a boundary frame, so a method never ends the native part of a stack |
| HelperNames.EntryPointIsBoundary | src/smalltalk_spy.rs:383-403 | a frame named after a generated entry point is a boundary if and only if the entry point starts with `ce` or `methodAbort` |
| CogMethods.MethodHeaderIsNamed | src/smalltalk_symbolizer.rs:490-528 | one of type 5 or 6 without a selector in the header gets both from the method it is in, from too deep only the selector, and from deeper a generic name |
| CogMethods.WithoutSelectorIsGeneric | src/smalltalk_symbolizer.rs:505-528 | a text under the header's selector that is no selector hides the method's own, and a block of another type has none but the header's: both are called `JIT frame` |
| CogMethods.MethodHeaderIsFound | src/smalltalk_symbolizer.rs:833-842 | the header word of a method is its first word if that is a small integer, and otherwise the one in the written CogMethod that word points to |
| RangeIndex.PartitionPoint | src/smalltalk_symbolizer.rs:325-327 | bisection finds where a partitioned sequence changes |
| RangeIndex.LookupIsNearest | src/smalltalk_symbolizer.rs:324-338 | the lookup returns a range if and only if it contains the pc and no range starts between its start and the pc |
| RangeIndex.InsertIsMapUpdate | src/smalltalk_symbolizer.rs:340-369 | insertion is map update keyed by the start and keeps the starts strictly increasing |
| RangeIndex.InsertAtEnd | src/smalltalk_symbolizer.rs:340-355 | inserting the next tile of a tiling appends it |
| RangeIndex.TilingLookup | src/smalltalk_symbolizer.rs:324-338 | in a tiling the lookup finds a range exactly for tiled addresses, and it is the only one containing the address |
| JitEntryTable.SortIsStable | src/smalltalk_symbolizer.rs:633 | the sort by address gives an ordered permutation and leaves the entries at each address in their order |
| JitEntryTable.DedupIsSorted | src/smalltalk_symbolizer.rs:634-635 | after removing neighbours of one address the addresses increase strictly |
| MethodZone.FirstSlotNamesAddress | src/smalltalk_symbolizer.rs:617-636 | an address is in the table if and only if some slot holds it, it is not null and lies in generated code; the first slot holding it names it |
| MethodZone.EntryLookupIsNearest | src/smalltalk_symbolizer.rs:401-424 | a pc is named after the nearest entry at or below it, if that is less than 4 KiB away and the pc looks like generated code; otherwise, and when no entry is at or below it, the table gives no name |
| MethodZone.WalkTiles | src/smalltalk_symbolizer.rs:583-608 | the walk tiles what it passes, ends at the end of the zone unless blocked inside it, overshoots by at most eight bytes, and takes one step for every forty bytes at most |
| MethodZone.RefreshKeepsInvariant | src/smalltalk_symbolizer.rs:537-615 | a refresh under any observation keeps: bounds known means blocked exactly at the cursor, or walked with a gap-free tiling up to the cursor |
| MethodZone.RefreshTakesBounds | src/smalltalk_symbolizer.rs:547-636 | a refresh takes the bounds shown unless the walk has passed their end; only then is the table of entry points made anew, and an address is in it if and only if it is generated code under the new bounds, not null and in some slot, under the name of the first such slot; answers are dropped exactly when the base changes or the end goes back |
| MethodZone.GeneratedCodeExactly | src/smalltalk_symbolizer.rs:376-391 | what looks like generated code: within 64 KiB of the known zone, in the low 4 GiB from 64 KiB on while the zone is known, or in an executable mapping of no file |
| ZoneTheorems.ResolveSummary | src/smalltalk_symbolizer.rs:167-204 | a lookup keeps the invariant, answers from the cache or the index when they have the pc, remembers its answer, and changes a walked zone in no other way |
| ZoneTheorems.ReachableZone | src/smalltalk_symbolizer.rs:167-204 | after any sequence of lookups, with memory and bounds changing at will, the index is sorted and the zone is unknown, blocked at its cursor, or tiled without gap up to it |
| ZoneTheorems.ScanLeavesWalkedZoneAlone | src/smalltalk_symbolizer.rs:192-200 | the backward scan adds nothing to a known zone that is not blocked |
| ZoneTheorems.RefreshedIndexIsWalked | src/smalltalk_symbolizer.rs:547-607 | whenever a refresh changes the index it leaves a tiling: ranges added by the scan are gone before the walk goes on |
| ZoneTheorems.BlockedUntilReset | src/smalltalk_symbolizer.rs:548-574 | a blocked zone stays blocked at the same cursor until the bounds show another base or an earlier end |
| ZoneTheorems.FirstAnswerIsIndexed | src/smalltalk_symbolizer.rs:167-190 | the first answer for a pc of a tiled zone is the name of the only range holding it, and is cached |
| ZoneTheorems.CachedAnswerStaysFresh | src/smalltalk_symbolizer.rs:167-190 | an answer taken from the index equals a fresh lookup after any run in which the zone only grows |
| ZoneTheorems.CachedAnswerIsKept | src/smalltalk_symbolizer.rs:167-190 | until the zone is reset, blocked or not, a pc keeps its first answer |
| ZoneTheorems.FreshExactlyWhenIndexed | src/smalltalk_symbolizer.rs:167-204 | once the index of a growing zone holds a pc, its cached answer is that of the index if and only if the pc was in the walked zone at its first lookup, or the method bears the very name given outside of it |
| ZoneTheorems.NewCodeIsNoticed | src/smalltalk_symbolizer.rs:167-190 | a pc inside the zone as shown now, in no range and without an answer, is answered from the index afterwards unless the walk is blocked; only below the known zone is nothing looked at |
| ZoneTheorems.EntryLookupSearchesSlots | src/smalltalk_symbolizer.rs:401-424 | among the entry points a pc is named after the slot with the nearest address at or below it, less than 4 KiB away, and by none if there is no such slot |
| ZoneTheorems.NewBoundsNameEntryPoint | src/smalltalk_symbolizer.rs:167-203 | a lookup that makes new bounds known, for a pc in no range, answers "Cog " and the name of the nearest slot, the slots judged under the new bounds |
| ZoneTheorems.FirstLookupNamesEntryPoint | src/smalltalk_symbolizer.rs:167-203 | so does the very first lookup, for a pc outside what the walk covers |
| WalkTheorems.WalkComposes | src/smalltalk_symbolizer.rs:583-608 | walking to a later end is walking to an earlier one and going on from there |
| WalkTheorems.IncrementalAgainstScratch | src/smalltalk_symbolizer.rs:547-608 | for stable headers and ends that do not go back, the index is a prefix of one walk from scratch, and all of it if and only if no walk to an end that was seen stops at a header that decodes and fits the last end |
| WalkTheorems.BlockedZoneFallsShort | src/smalltalk_symbolizer.rs:598-602 | a concrete zone whose method overruns the first end seen and stays out of the index although it fits the second |
| WalkTheorems.RunAgainstScratch | src/smalltalk_symbolizer.rs:167-204 | over whole runs of lookups, with their backward scans, the index of a zone that is not blocked is what one walk from scratch to its end finds; the zone is blocked if and only if a lookup that refreshes met an end up to which the walk is, and then at that walk's cursor |
| WalkTheorems.AnswerBeyondZoneGoesStale | src/smalltalk_symbolizer.rs:167-204 | a concrete run in which a pc asked about too early keeps a generic answer although its method is indexed later |
| WalkTheorems.BackwardScanIsNearestHeader | src/smalltalk_symbolizer.rs:426-472 | the scan returns the nearest eight-aligned header at or below the pc that covers it, or there is none in the megabyte below it as far as that is in the mapping or the zone, and tries at most 131073 addresses |
| WalkTheorems.ScanMissesNoMethod | src/smalltalk_symbolizer.rs:426-472 | the megabyte the scan looks back over never hides a header that covers the pc: any such header from the start of the mapping or zone on is found, or a nearer one is |
| WalkTheorems.UnindexedAnswer | src/smalltalk_symbolizer.rs:192-203 | which of three names a pc outside the index gets: that of the nearest entry close by, else that of the nearest header covering it where the scan may look, else a generic one exactly when it looks like generated code |
| ZoneLayout.ZoneRoundTrip | src/smalltalk_symbolizer.rs:583-608 | walking a zone of written headers gives back exactly its methods, unblocked |
| StillProcess.LookupsAreIndependent | src/smalltalk_symbolizer.rs:167-204 | in a still process whose zone can be walked, after any lookups, every pc is answered as by a new symbolizer: cache, index and refreshes cannot be noticed |
| StillProcess.BlockedAnswersDependOnHistory | src/smalltalk_symbolizer.rs:192-203 | a concrete zone whose walk is blocked and in which a pc is answered differently after a lookup of another |
| ZoneLayout.LookupNamesMethod | src/smalltalk_symbolizer.rs:167-190 | after any lookups, any pc inside the i-th written method is answered with that method's name |
| Observations.ReadMethodZoneBounds | src/smalltalk_symbolizer.rs:638-653 | bounds that are reported are the words at the two symbols, the base not null, the end later, and at most 512 MiB between them |
| Observations.WrittenBoundsAreRead | src/smalltalk_symbolizer.rs:638-653 | the two words, as written, are read back as the bounds if and only if the base is not null and the end comes after it by at most 512 MiB, even if memory changes between the reads |
| Observations.WrittenSlotsAreRead | src/smalltalk_symbolizer.rs:617-623 | what is seen in the entry slots are the words written there, slot by slot |
| Symbolizer.SmalltalkSymbolizer.InsertMethodRange | src/smalltalk_symbolizer.rs:340-369 | with its fast paths at the end, the in-place insertion is the specified one |
| Symbolizer.SmalltalkSymbolizer.RefreshMethodZone | src/smalltalk_symbolizer.rs:537-615 | the in-place refresh sets bounds, table, walk and cursor in the order of the source, leaves exactly the specified state (what that is, `MethodZone.RefreshTakesBounds` and `WalkTheorems.IncrementalAgainstScratch` say) and keeps the invariant |
| Symbolizer.SmalltalkSymbolizer.WalkMethodZone | src/smalltalk_symbolizer.rs:583-608 | the loop appends exactly what the walk finds and sets cursor and block accordingly |
| Symbolizer.SmalltalkSymbolizer.ScanForMethod | src/smalltalk_symbolizer.rs:426-449 | the loop finds what the scan finds, and inserts it |
| Symbolizer.SmalltalkSymbolizer.ResolveJitPc | src/smalltalk_symbolizer.rs:167-204 | answer and whole new state are the specified ones, and the invariant is kept |
| Symbolizer.SmalltalkSymbolizer.WalkFrames | src/smalltalk_symbolizer.rs:221-273 | names and new state are those of the chain specification; never more than 200 names |
| CogFrames.WalkChain | src/smalltalk_symbolizer.rs:243-272 | at most 200 frames on every memory, cyclic chains included |
| CogFrames.ChainIsWalkedInOrder | src/smalltalk_symbolizer.rs:243-272 | a readable chain is walked frame by frame in caller order, each frame named once with the index threaded through, to its end or to 200 frames |
| CogFrames.WholeChainIsNamed | src/smalltalk_symbolizer.rs:221-273 | from the two interpreter globals on, the walk of a readable chain names every frame in caller order; the fields and links read are those of the frames in memory by `CogFrames.WrittenChainIsNamed` |
| CogFrames.WrittenChainIsNamed | src/smalltalk_symbolizer.rs:221-273 | of frames written with their method eight bytes below the frame pointer and their caller at it, the last one linked to nothing or to itself, exactly the written methods are named, in caller order, the first 200 of a longer chain; memory may change between the reads |
| CogFrames.NamesOfParts | src/smalltalk_symbolizer.rs:243-272 | the names of a chain cut in two are those of its parts; leaving out unnamed frames disturbs no other |
| CogFrames.ChainOfMethodsIsNamed | src/smalltalk_symbolizer.rs:221-292 | in a still process a whole chain of JIT and interpreted frames is named, in caller order, after the methods the frames run, whatever has been looked up before; only frames without a method or a name are left out |
| CogFrames.WrittenChainOfMethodsIsNamed | src/smalltalk_symbolizer.rs:221-321 | the same from the written bytes of zone, globals and frames to the names |
| CogFrames.JitFrameIsNamed | src/smalltalk_symbolizer.rs:282-292 | a frame of the i-th written method gets that method's name if and only if the block exceeds its header of forty bytes, or what follows the block is called the same |
| CogFrames.BareMethodIsMisnamed | src/smalltalk_symbolizer.rs:282-292 | a concrete zone in which a frame of a method that is only a header is shown under the name of the block behind it |
| CogFrames.InterpretedFrameIsNamed | src/smalltalk_symbolizer.rs:293-321 | a context whose slot 3 holds a method or a block is named after class and selector of the method, after `???` from too deep, and not at all from deeper |
| ChromeTraces.SharedIsMaximal | src/chrometrace.rs:82-87 | the frames kept are the longest common prefix, from the root, of the two stacks as shown |
| ChromeTraces.IncrementIsFaithful | src/chrometrace.rs:71-105 | one snapshot keeps every replayed stack equal to the last trace if and only if the thread kept its process or had no frames open |
| ChromeTraces.RunIsFaithful | src/chrometrace.rs:71-105 | over any run, no end event closes a frame that is not on top and every stack replays to the last trace, after every snapshot, if and only if no thread id moves between processes with frames open |
| ChromeTraces.ReusedThreadIdEndsForeignFrame | src/chrometrace.rs:75-93 | a thread id reused by another process closes a frame that process never opened |
| ChromeTraces.WrittenRunIsBalanced | src/chrometrace.rs:71-121 | the file of any run in which no thread id moves between processes with frames open closes every frame of every thread, each on top when it is closed, in whatever order the map is iterated |
| ChromeTraces.NoShorterScript | src/chrometrace.rs:81-99 | no push/pop script between two stacks is shorter than their lengths minus twice the shared part |
| ChromeTraces.IncrementIsMinimal | src/chrometrace.rs:81-99 | a snapshot emits exactly that many events |
| ChromeTraces.EventsOfSnapshot | src/chrometrace.rs:52-105 | every event of a snapshot carries its time, process and thread, and name, file and line of a frame, of the last trace if it is an end and of this one if it is a begin |
| ChromeTraces.RunKeepsOrder | src/chrometrace.rs:71-105 | the events of a run are in the order of time when its snapshots are |
| ChromeTraces.WrittenFileIsInOrder | src/chrometrace.rs:107-121 | so are those of the file, whose closing events are ends at the time it is written |
| ChromeTraces.Chrometrace.AddTrace | src/chrometrace.rs:71-105 | the in-place update is the specified one and keeps the stream faithful exactly under the condition |
| ChromeTraces.Chrometrace.WriteEvents | src/chrometrace.rs:107-121 | the events of the file, closed in some order of the threads, leave every stack empty |
| Speedscope.InternKeepsTable | src/speedscope.rs:217-228 | interning keeps the index a numbering of its keys without gap or repetition, old numbers stay valid, and the new number stands for the frame |
| Speedscope.SameNumberSameKey | src/speedscope.rs:217-228 | two frames share a number if and only if they are alike, but for the line when lines are not shown |
| Speedscope.RecordRoundTrip | src/speedscope.rs:212-254 | over any run, decoding a thread's samples through the final table gives its stacks, reversed, in order |
| Speedscope.SampleShowsStack | src/speedscope.rs:212-254 | frame by frame: number k of the i-th sample of a thread stands for name, file and, if shown, unsigned line of the k-th frame from the root of its i-th stack |
| Speedscope.OneProfileExactly | src/speedscope.rs:229-233 | two traces go into one profile if and only if they are of one process and their thread ids agree in the low 32 bits |
| Speedscope.FirstStackNamesThread | src/speedscope.rs:235-251 | a thread has samples exactly when it has stacks, and its label gives process, thread id and name of its first stack |
| Speedscope.NoSampleIsLost | src/speedscope.rs:232-234 | the stored samples of all threads number the recorded stacks |
| Speedscope.WeightsFillTheProfile | src/speedscope.rs:136-159 | a profile holds the samples of its thread, one weight of a sampling period to each, summing to end minus start, and bears the label of the first stack |
| Speedscope.Stats.AddStack | src/speedscope.rs:212-254 | the in-place recording is the specified one |
| TopStatistics.CountersCountTraces | src/console_viewer.rs:379-408 | over any run each counter is the number of traces, since the last refresh or clearing, that have the label, or have it on top |
| TopStatistics.OwnWithinTotal | src/console_viewer.rs:393-407 | own is at most total, and current at most overall |
| TopStatistics.OwnTimeIsConserved | src/console_viewer.rs:403-406 | the own counts of all labels add up to the traces that have a frame |
| TopStatistics.TopCounters.AddTrace | src/console_viewer.rs:379-408 | the result does not depend on the order of the hash map |
| TopStatistics.TopCounters.ResetCounters | src/console_viewer.rs:465-475 | the current counters become zero and the overall ones stay |
| Sampler.StepKeepsInv | src/sampler.rs:185-245 | every step of loop, worker or monitor keeps the protocol invariant |
| Sampler.OneMessageUnderWay | src/sampler.rs:321-408 | in every interleaving, with workers dying before they report or while they sample and channel ends closing one by one in any order, a working worker has one message under way exactly when its spy is notified, each sample answers the notification of its own tick, one to a spy, and between ticks nothing is under way |
| Sampler.StartedSpyIsAsked | src/sampler.rs:198-203 | at its turn a spy is asked if and only if its worker has reported its start, known or still queued, and still receives; unless that worker is leaving the request of this tick is then the only message under way, and no other spy is touched |
| Sampler.EveryTickSamplesStartedSpies | src/sampler.rs:198-215 | in every run, every spy whose worker has reported its start when a tick begins has delivered its sample of this tick when the tick is over, or its worker is leaving |
| Sampler.TickAnswersEveryNotification | src/sampler.rs:198-215 | when a tick is over every spy asked in it has answered, or its worker is leaving and it no longer counts as running; who is asked, `EveryTickSamplesStartedSpies` says |
| Sampler.LiveWorkersAreKept | src/sampler.rs:385-408 | a started spy stops counting as running only when its worker is leaving |
| Sampler.LoopStopsWithoutWorkers | src/sampler.rs:229-243 | the loop ends exactly when nobody receives its samples or no started spy is running, and then in the latter case all their workers are leaving |
| Sampler.LoopGoesOn | src/sampler.rs:185-243 | until it ends the loop can always take its next step, unless it waits for a sample (which `BlockedLoopIsServed` answers) |
| Sampler.WaitingLearnsStatus | src/sampler.rs:348-364 | waiting for a spy ends with its report, after which it is running exactly if it has started, or without one, its worker being gone and nothing changed |
| Sampler.WorkerMayDieUnreported | src/sampler.rs:348-364 | an interleaving in which a worker dies before it reports, the wait for it ends without a status, and sampling starts all the same |
| Sampler.SpiesJoinBetweenTicks | src/sampler.rs:143-177 | while sampling goes on, a process can join between two ticks and not within one, as a spy whose worker has yet to start |
| Sampler.BlockedLoopIsServed | src/sampler.rs:396-408 | a loop blocked in collect waits for a worker that can act, whose every step brings it nearer, and nothing else touches that spy |
| Sampler.WaitIsShort | src/sampler.rs:396-408 | the loop cannot stay blocked while its worker takes five steps, however the rest is scheduled |
| Sampler.SmalltalkSpyThread.CheckInitialized | src/sampler.rs:366-383 | keeps the spy's part of the protocol invariant; a spy is ready exactly when it is known to have started, a status that was sent is known afterwards, one that is known is not looked for again, and without one the worker is starting or has died |
| Sampler.SmalltalkSpyThread.SendNotification | src/sampler.rs:385-394 | keeps the invariant; the spy counts as notified exactly when its worker still receives, a working worker then has this notification and nothing else under way, and a spy that could not be notified has lost its worker |
| Sampler.SmalltalkSpyThread.CollectSample | src/sampler.rs:396-408 | keeps the invariant; a sample answers the notification of this tick, a notified spy without a sample has lost its worker and is given up, and nothing is left under way |
| Sampler.SmalltalkSpyThread.AwaitInitialized | src/sampler.rs:348-364 | keeps the invariant; after the wait a status that was sent is known, and a spy that is not ready has lost its worker, also when the worker died before it could report |
| SamplingTimer.ReturnsWhenDue | src/timer.rs:45-64 | a tick returns when the gaps so far add up, or later by exactly what it reports; one that is on time has slept |
| SamplingTimer.LatenessStep | src/timer.rs:55-63 | lateness grows by the busy time, shrinks by the gap, and is never negative |
| SamplingTimer.LatenessIsGreatestBacklog | src/timer.rs:45-64 | lateness is the greatest sum of busy time minus gap over the rounds of any suffix, the empty one included |
| SamplingTimer.Timer.Next | src/timer.rs:45-64 | the in-place tick is the specified one |
| StackStitching.AfterLastBoundary | src/smalltalk_spy.rs:383-403 | the splice point is one past the last boundary frame |
| StackStitching.SplicedExactly | src/smalltalk_spy.rs:359-404 | a stack is spliced if and only if it has at most three methods and a boundary frame, behind the deepest of these |
| StackStitching.FindInterpreterBoundary | src/smalltalk_spy.rs:359-404 | the loop finds the splice point, or none in a stack with more than three methods |
| StackStitching.StitchedShape | src/smalltalk_spy.rs:229-289 | a stack without splice point or chain stays as it is; a spliced one is the native stack through its deepest boundary frame, then frames of file `Smalltalk` and module `Squeak` for the Cog names the native stack lacks, in order and as often as in the chain, then `Cog ceBaseFrameReturn` |
| StackStitching.SplicedIsDetermined | src/smalltalk_spy.rs:229-289 | these facts leave no choice: a stack has them if and only if it is the stitched one |
| StackStitching.NothingLostUnlessCut | src/smalltalk_spy.rs:237-275 | no Smalltalk name is lost if and only if each native method after the splice point is also named before it |
| StackStitching.CutCallerIsLost | src/smalltalk_spy.rs:237-275 | a concrete stack whose only Smalltalk caller disappears |
| StackStitching.TrimmedShape | src/smalltalk_spy.rs:424-428 | trimming keeps a prefix, cuts off no method, ends in a method if there is one, leaves other stacks alone, and is idempotent |
| StackStitching.TrimmingUndoesTheSharedRoot | src/smalltalk_spy.rs:277-300 | with native roots hidden a spliced stack keeps the shared root if and only if no frame above the splice is a method and every Cog name is a helper's or already on the native stack; from all others it is cut |
| StackStitching.SharedRootIsCut | src/smalltalk_spy.rs:277-300 | a concrete callout that loses the shared root |
| StackStitching.Stack.Stitch | src/smalltalk_spy.rs:229-289 | the in-place splice is the specified one |
| StackStitching.Stack.TrimNativeRoots | src/smalltalk_spy.rs:424-428 | the backward search in place cuts off exactly the frames after the last method, and none if there is no method |
| StackStitching.AddressRoundTrip | src/smalltalk_spy.rs:431-435 | every 64-bit address written as the name of an unresolved frame is parsed back |
| StackStitching.OtherSpellingsAreRead | src/smalltalk_spy.rs:431-435 | so is the address in capitals, in any mixture, and with a plus sign |
| SmalltalkSpy.PassKeepsFrames | src/smalltalk_spy.rs:211-223 | the naming pass keeps every frame in place; only frames of file `?` with a hexadecimal name can become Smalltalk frames |
| SmalltalkSpy.PassNamesEachFrame | src/smalltalk_spy.rs:211-223 | in a still process every frame of a stack is named on its own, whatever was named before |
| SmalltalkSpy.AddressBecomesMethodName | src/smalltalk_spy.rs:205-223 | an address inside a written method that the native symbolicator does not know comes out as a Smalltalk frame with that method's name, anywhere on any stack and after any lookups |
| SmalltalkSpy.StackOfMethodsIsNamed | src/smalltalk_spy.rs:205-223 | a whole stack of such addresses becomes the stack of their methods |
| SmalltalkSpy.Spy.FinishThread | src/smalltalk_spy.rs:205-311 | the named frames are stitched if there is a splice point and a chain, with all the facts of a spliced stack, and otherwise stay; with native roots hidden the result is cut after its last method if it has one, losing none, and otherwise not at all; the symbolizer is left in the specified state |
| SmalltalkSpy.FinishedIsDetermined | src/smalltalk_spy.rs:229-300 | what is promised of a finished stack holds of one stack only |
| NativeSymbols.CacheIsTransparent | src/native_stack_trace.rs:138-184 | if no address is answered with one frame and an error, any stack gives the frames and the reload wish of asking afresh, and the cache stays bounded and true |
| NativeSymbols.AmbiguousAnswerIsNoticed | src/native_stack_trace.rs:149-180 | for one address met twice, the cache goes unnoticed if and only if it is not answered with one frame and an error |
| NativeSymbols.CacheIsUnnoticedExactly | src/native_stack_trace.rs:138-184 | the cache goes unnoticed on all stacks if and only if no address at all is answered so |
| NativeSymbols.InlinedFramesInOrder | src/native_stack_trace.rs:149-176 | the functions inlined at an address are shown in the order they are reported in, and an error adds the number of the address behind them |
| NativeSymbols.LatelyUsedIsRemembered | src/native_stack_trace.rs:138-184 | a cached address is still cached after fewer than 65536 others were symbolized since it was last used |
| SymbolReloads.CacheIsTransparentOverReloads | src/native_stack_trace.rs:116-184 | over any run of stacks with reloads that keep what was shown without an error, and no ambiguous answer, frames and reloads are those of a run without the cache |
| SymbolReloads.ReloadIsUnnoticedExactly | src/native_stack_trace.rs:116-184 | for a symbolicator and what it is once reloaded, no run of stacks shows the cache if and only if no answer is ambiguous before the reload and, if one can be asked for, none is after it and it keeps the shown frames of every address that can be cached |
| SymbolReloads.ReloadedNameIsStale | src/native_stack_trace.rs:120-125 | a concrete run in which an address keeps, after a reload, the name of a library that is gone |
| NativeSymbols.UnknownAddressReachesSmalltalkPass | src/native_stack_trace.rs:161-176 | an unknown address becomes one frame of no file whose name the Smalltalk pass parses back to it |
| NativeSymbols.NativeStack.Resolve | src/native_stack_trace.rs:116-136 | a due reload happens first and clears the wish; frames and state are then the next step of such a run |
| NativeSymbols.NativeStack.SymbolizeAddresses | src/native_stack_trace.rs:138-184 | the loop over a stack leaves the specified frames, cache and reload wish |
| StackSnapshots.CopyIsMemoryInWindow | src/framehop_unwind.rs:226-265 | a word of the copy is the memory at capture inside the clamped window and unreadable outside |
| StackSnapshots.CapturedExactly | src/framehop_unwind.rs:226-252 | a copy is taken if and only if the window can be read: 128 KiB from the stack pointer on, cut at the end of the first mapping that holds it |
| StackSnapshots.SnapshotIsolation | src/framehop_unwind.rs:212-279 | unwinding the copy depends only on registers and window at capture, and is a prefix of walking the stopped process, all of it when that walk stays in the window |
| StackSnapshots.CopiedFramesAreUnwound | src/framehop_unwind.rs:254-279 | a frame-pointer walk of frames inside the window yields the program counter and every return address |
| StackSnapshots.UnwindSnapshot | src/framehop_unwind.rs:254-279 | the loop polls the unwinder to its end and collects exactly the frames of the walk, however long one would have waited |

## Left out

- Attaching, ptrace, `/proc`, locking, ELF/Mach-O/PE parsing and file reads: the operating system and foreign libraries. Only reading memory at an address is kept.
- The framehop and libunwind engines, the symbolicator and the demangler are unseen: they are arbitrary deterministic functions; an unwinder ends at a failed read.
- StackSnapshots.UnwindSnapshot: assumes that the unseen unwinder ends its walk.
- The loading of unwind modules and the periodic refresh of the module list.
- Inside one selector or class name lookup the memory stands still; between any two reads of a header, and between lookups, it may change.
- SpurObjects.ReadsExactlyEncodings: does not cover slot counts of 255 and more, which no string of at most 512 bytes needs; the overflow word is read as the code does.
- WalkTheorems.IncrementalAgainstScratch: like RunAgainstScratch, is about headers that do not change; a zone compacted and grown again between two samples is not noticed by the code.
- Sampler.OneMessageUnderWay: assumes that taking a stack trace returns; a poisoned lock and the receiving side of the finished samples (other than that it may hang up) are not modelled.
- CogFrames.WrittenChainIsNamed: is about frame pointers of eight and more; below, the address of the method wraps around, as `FieldAddressWraps` says.
- SymbolReloads.ReloadIsUnnoticedExactly: is about runs in which every reload gives the same symbolicator; CacheIsTransparentOverReloads is about any.
- ZoneLayout.LookupNamesMethod: is about a process that stands still with a well-formed zone; of a moving one the reachable-state theorems speak.
- The single-process sampler, which has no protocol, and the annotation of traces with process information.
- The random gaps of the timer are arbitrary numbers of nanoseconds; weights of a profile are real numbers, not floating point.
- The text of thread names, the order of profiles in a file, and the JSON and SVG output.
- Command line, terminal drawing, keyboard, flamegraph counting and the pause statistics.
- The remembering of shortened file names: shortening is a function.
