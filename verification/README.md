# Proofs about libsupcxx on bare metal

The repository is a C++ runtime for programs without an operating system: run-time type information,
exceptions, a heap, page tables, formatted printing, number parsing and hashing. This project models
the parts of it that take the most care to get right, in the form the source gives them (objects
updated in place are classes, loops are loops over the same variables), and proves what each
promises. `dafny verify dfyconfig.toml` checks everything.

## What is modelled

**Casts and catches.** `ClassTypes` describes class hierarchies as the compiler's records do, and
says at which addresses an object of one class holds subobjects of another (`Places`); `Paths` says
the same by paths of bases and the offsets on them. `DyncastSearch` is the lazy, hint-guided,
two-pass search of `__do_dyncast`, with its early exits; `FindPublicSrc` is its helper;
`DynamicCast` is the final cascade, proved against the two cases of section 5.2.7 paragraph 8 of ISO
C++14 for two kinds of hierarchy: those without virtual bases, with any mix of public and non-public
bases and any repetition, and those with virtual bases in which every base is public and no class is
repeated. `Upcast` is the search used for catching by base class, written as a function over every
hierarchy and characterised by the first path it finds. `PointerCatch` is the pointer matcher,
proved against the qualification conversions of section 4.4 paragraph 4 and the function pointer
conversions of ISO C++17. `Catching` puts them together: which handler runs, and which object it
gets.

**Exceptions.** `ExceptionSpec` is the life of exception objects as the language tells it: active
handlers, exceptions in flight, and what must be destroyed when. `ExceptionRuntime` is the runtime:
headers in raw memory, the caught-stack, the signed handler count, the uncaught counter, and the
emergency pool behind malloc. `ExceptionLifecycle` proves that every legal run of the runtime
follows the account. `Personality` is the two-phase decision of the personality routine for native
and foreign exceptions and forced unwinding, driven by an unwinder over any stack of frames, each of
which is entered again after its cleanups. `ExceptionStorage` is about the emergency pool,
`ExceptionsOnHeap` about exceptions in blocks of the heap.

**Heap.** `Heap` is malloc and free over chunk headers in memory, each proved equal to a function on
the sequence of chunks; `HeapRuns` proves what holds over every sequence of calls; `HeapSetup` is
the boot code that carves the heap out of the memory map.

**Page tables.** `Paging` is the x86_64 set-up with a page walk as its meaning; `Multiboot` is the
choice of the region it maps. `Options` and `Limits` are helpers.

**Printing and parsing.** `Ntoa` is integer printing through the reversed 32-character buffer,
`Printf` the interpreter of format strings, proved against a grammar of directives that
`PrintfGrammar` shows to be unambiguous, `PrintfFields` what widths do, `PrintfStandard` what
section 7.21.6.1 of ISO C prescribes for integers and when it is printed, `PrintfDirectives` the
same for directives and formats as they are written, `Strtoul` the saturating parser against section
7.22.1.4, `RoundTrip` the laws that connect printer and parser.

**Hashing.** `HashBytes` is the 64-bit Murmur-style hash and the FNV hash, with the inputs they
never confuse.

## Assumptions

- One `ClassType` value stands for one class, so comparing type names is comparing values. Without
  virtual bases, no two subobjects of one class share an address (`Distinct`). The hierarchy flags
  mean what section 2.9.5 of the Itanium C++ ABI says (`FlagsSound`).
- Addresses lie above every offset (`OffsetsBelow`), because the search may ask about a target at
  null.
- What the environment decides is a parameter: what malloc answers, which types catch, which words
  lie in fresh memory, where the linker put the kernel, and where tables lie.
- The target is x86_64, where a char is signed (`%hhd` reads one). Character arrays for strings hold
  single bytes; integers are unbounded with the wrap-around of the 64-bit target written out.

## Where the code and its promise part

The model follows the code. Each difference has a theorem that says exactly when the promise holds,
except where only an instance is named.

- `__do_find_public_src` of a class without bases compares addresses but not classes. Without a hint
  that settles the matter, a target then misleads the search if it does not hold the source publicly
  while another public class without bases lies at the source's address in it. Unless the search
  compares several targets of which one misleads before it has seen the source outside them all, the
  answer is the prescribed one if and only if the source does not lie non-publicly in a target that
  misleads; otherwise the target is returned (`DynamicCast.DynamicCast`, with the instance
  `DynamicCast.PrivateSourceFound`).
- The upcast by which objects are caught stops at the first path that is not public, and the virtual
  bit that would let it go on is never set. So a public path can be found too late, and an ambiguity
  can stay hidden behind a private path; on all hierarchies the upcast is right if and only if
  neither happens (`Upcast.SucceedsIff`, with the instances `Upcast.PublicBaseMissed` and
  `Upcast.AmbiguousBaseCaught`). It is always right with only public bases, without repeated bases,
  and without virtual bases (`Upcast.NeverMisjudged`). A null pointer can be converted to an
  ambiguous base even with only public bases (`Upcast.NullConverts`).
- A thrown `std::nullptr_t*` is caught by a handler for `int**`: the test for nullptr_t is made at
  every depth (`PointerCatch.NullptrPointerCaught`). The promise of a function not to throw may be
  dropped at every depth too, and not only at the outermost (`PointerCatch.NoexceptInsideCaught`).
  Where neither happens, and only there, the matcher agrees with the standard
  (`PointerCatch.StandardIff`).
- Neither allocating nor throwing clears the handler count of the header, and destroying an
  exception leaves 1 behind. A run keeps its invariant if and only if every throw finds a zero there
  (`ExceptionLifecycle.RunKeepsIff`); were the blocks from malloc to hold zeros, if and only if no
  slot of the emergency pool is thrown from twice (`ExceptionLifecycle.KeptIffSlotsOnce`). But this
  heap clears nothing and gives a freed block back to the next request of its size
  (`ExceptionsOnHeap.MallocAgain`), so that the second of two exceptions of one size finds the 1 and
  is never destroyed (`ExceptionsOnHeap.SecondOfOneSize`). What happens to one exception in general:
  `ExceptionLifecycle.DestroyedIffFresh`, `SecondThrowStays`.
- The page-table set-up checks the start of the heap against 512 GiB but not its end; beyond that,
  the slot of the kernel is overwritten (`Paging.LowKeptIff`, `Paging.HeapPastLimit`). A slot of 1
  GiB that the heap starts inside is mapped to the end of the slot, even if the heap ends before it;
  nothing else is mapped besides the heap and the first 8 MiB (`Paging.IdentityMapped`).
- A request for nothing is not rounded up to 8 bytes: it may leave a chunk of size 0 behind
  (`HeapRuns.UsefulIff`).
- `strtoul` departs from section 7.22.1.4 of ISO C in three ways, and is right if and only if none
  of them occurs (`Strtoul.RightIff`): the white space it skips is blanks and tabs only
  (`Strtoul.SecondLineLost`); in base 0 or 16 it takes `0x` for a prefix without a hexadecimal digit
  behind it (`Strtoul.BareXLost`); and in base 36 it does not read `z` and `Z`, as `isalpha` stops
  before them (`Strtoul.LastLetterLost`).
- The print buffer of 32 characters drops the sign when zero padding fills it
  (`RoundTrip.RoundTripIff`, `RoundTrip.MinusOneLost`), with `#` a width equal to the number of
  digits overwrites leading digits (`PrintfFields.WidthAddsBlanks`, `PrintfFields.AllDigitsEaten`,
  `PrintfDirectives.DigitLost`), and with left alignment the precision of an integer is forgotten
  (`PrintfDirectives.PrecisionLost`). A negative precision is taken for 0 instead of none, also for
  strings (`PrintfDirectives.StringIff`), and widths and precisions are read modulo 2^32. Together
  with a few octal cases these are all departures of the integer conversions from section 7.21.6.1
  of ISO C: `PrintfDirectives.TextIsStandardIff` gives the condition under which a directive prints
  what it prescribes. The conversion to binary, which is not of the standard, keeps 32 digits
  (`PrintfDirectives.BinaryText`).
- A region of RAM of a mebibyte or more that still starts at address 0 after the trimming puts a
  chunk at null, which ends the list: the heap is complete and valid if and only if there is none
  (`HeapSetup.InitialHeap`, `HeapSetup.HeapHidden`). When no region qualifies, the head of the heap
  is whatever was on the stack (the parameter `fakeNext` of `HeapSetup.SetUpHeap`).
- `_parseMultiboot` takes the byte length of the map for its number of entries and reads on behind
  it. It makes the right choice if and only if nothing it finds there looks like longer available
  memory (`Multiboot.RightChoiceIff`, `Multiboot.ReadBehindMap`).
- The hash keeps the end of its whole blocks in an int. Where bit 31 of the length is set, that end
  lies before the input, and the loop, which starts at offset 0, never comes to it
  (`HashBytes.LoopEndsIff`); otherwise only as many bytes count as the lower half of the length
  says, which is all of them below 2 GiB (`HashBytes.HashTellsBlocksApart`).
- The FNV hash takes characters as signed: it is FNV-1a of ASCII strings, and never of a string with
  one other character (`HashBytes.FnvIsFnv1a`, `HashBytes.FnvIsNotFnv1a`).

## Model

| member | source | states |
|---|---|---|
| DynamicCast.DynamicCast | libsupcxx/src/dyncast.cc:45-95 | On every hierarchy without virtual bases, with any mix of access and repetition, and on every hierarchy with virtual bases that has only public and no repeated ones, for every valid hint, unless the search without such a hint compares several targets of which one misleads before it has seen the source: the result is what ISO C++14 section 5.2.7 paragraph 8 prescribes if and only if the source does not lie non-publicly in a target that misleads; in that case the result is that target. Null while a primary base is under construction |
| DynamicCast.FewOrFair | libsupcxx/src/vmi_class_type_info.cc:194-284 | With one target, or none that misleads, the search never makes such a comparison |
| DynamicCast.SourceInside | libsupcxx/src/vmi_class_type_info.cc:194-284 | Where it makes none and the source lies inside a target, there is one target, or none misleads |
| DynamicCast.Decide | libsupcxx/src/dyncast.cc:71-94 | From any outcome the search may have, early exits included, the final tests reach the prescribed object, except exactly in the misled case |
| DynamicCast.RightIffNotMisled | libsupcxx/src/tinfo.h:149-161 | The helper is right about a target if and only if the target does not mislead |
| DynamicCast.NothingPrescribed | libsupcxx/src/dyncast.cc:82-86 | For a source that lies non-publicly in the one target, the rule prescribes null |
| DynamicCast.OpenDecide | libsupcxx/src/dyncast.cc:71-94 | With virtual but only public bases and nothing repeated, the answer is the one target there is, as the rule has it |
| DynamicCast.OneAnswer | libsupcxx/src/dyncast.cc:30-43 | The rule prescribes one object, whatever the hint |
| DynamicCast.CastWithAndWithoutHint | libsupcxx/src/dyncast.cc:36-43 | A cast with a valid hint and the same cast without one, where that never compares several targets of which one misleads, return the same pointer, except exactly where the hint settles the matter and the cast without it is misled |
| DynamicCast.PrivateSourceFound | libsupcxx/src/class_type_info.cc:64-66 | A concrete class with a private source and an empty public base at the same address for which the cast returns the object, against the rule |
| DyncastSearch.DoDyncast | libsupcxx/src/vmi_class_type_info.cc:79-302 | A search of any subobject ends in one of three situations: it hit the target that holds the source; it found the source privately outside all targets; or it tallied all targets and saw or missed the source accordingly |
| DyncastSearch.LeafDyncast | libsupcxx/src/class_type_info.cc:70-94 | The same for a class without bases |
| DyncastSearch.SiDyncast | libsupcxx/src/si_class_type_info.cc:43-72 | The same for a class with one public base |
| DyncastSearch.VmiDyncast | libsupcxx/src/vmi_class_type_info.cc:88-108 | The same for a class with several bases, with the flags taken from the first base list met |
| DyncastSearch.SearchBases | libsupcxx/src/vmi_class_type_info.cc:110-158 | The one or two passes over the bases together account for every base: none missed, none counted twice, in spite of the skipping and the early returns |
| DyncastSearch.SearchPass | libsupcxx/src/vmi_class_type_info.cc:121-158 | A pass that is not cut short has searched exactly the bases that belong to it |
| DyncastSearch.TwoPasses | libsupcxx/src/vmi_class_type_info.cc:133-145 | What the first pass has searched is exactly what the second one skips |
| DyncastSearch.NothingInPrivate | libsupcxx/src/vmi_class_type_info.cc:149-156 | Leaving out a private base under hint -2 without repeated bases loses nothing the rule needs |
| DyncastSearch.TakeTarget | libsupcxx/src/vmi_class_type_info.cc:164-174 | A base that holds the target together with the source settles the search of the whole |
| DyncastSearch.Absorb | libsupcxx/src/vmi_class_type_info.cc:164-290 | Joining the finding of one base to what was found before keeps the account exact or ends the search with a definite answer |
| DyncastSearch.TakeFirst | libsupcxx/src/vmi_class_type_info.cc:176-186 | The first target found is the tally; with the source seen and nothing repeated the search is over |
| DyncastSearch.FaceRivals | libsupcxx/src/vmi_class_type_info.cc:187-290 | The same target again through a virtual base, or two rivals: the combined finding names the single target, records ambiguity, or stops for good |
| DyncastSearch.NotSeenYet | libsupcxx/src/vmi_class_type_info.cc:194-284 | While the source has not been seen outside the targets, the helper is right about those found so far |
| DyncastSearch.OpenStop | libsupcxx/src/vmi_class_type_info.cc:182-185 | Without repeated classes, the first target met is all of them |
| DyncastSearch.Disambiguate | libsupcxx/src/vmi_class_type_info.cc:194-284 | Of two rival targets the one that publicly holds the source is kept; in neither, both are given up for the moment |
| DyncastSearch.Choices | libsupcxx/src/vmi_class_type_info.cc:206-247 | The lazily computed containment of both rivals is the true one as far as the choice needs it |
| FindPublicSrc.DoFindPublicSrc | libsupcxx/src/vmi_class_type_info.cc:32-68 | The result is public exactly when the recursive search condition holds, for all three kinds of class |
| FindPublicSrc.FindSrc | libsupcxx/src/tinfo.h:149-161 | The hint answers without a search; otherwise the search does, and the answer is contained-public or not-contained |
| FindPublicSrc.FindsExactly | libsupcxx/src/class_type_info.cc:58-68 | The search says yes if and only if the source is a public subobject there, or a decoy lies there |
| FindPublicSrc.FindsOutsideVirtual | libsupcxx/src/vmi_class_type_info.cc:50-54 | Under hint -3, when no virtual base of the target holds the source, leaving virtual bases out misses nothing |
| Subobjects.OneHolder | libsupcxx/src/vmi_class_type_info.cc:213-216 | A subobject lies in at most one target, so the choice between two rivals is never double |
| Paths.PlacesByPaths | libsupcxx/src/tinfo.h:64-74 | An object has a subobject at an address exactly if a path of bases, public ones if asked for, leads there: the offsets written in the base records add up, from the object or from the last virtual base on the path |
| Paths.NoVirtualOnPath | libsupcxx/src/tinfo.h:64-74 | Without virtual bases the offsets add up from the object |
| Subobjects.PublicThrough | libsupcxx/src/dyncast.cc:78-86 | A publicly reachable subobject inside a target makes the target public in the whole, and itself public in the target |
| Subobjects.FirstFlagsSound | libsupcxx/src/vmi_class_type_info.cc:88-89 | The flags a search starts with speak for the whole object |
| ClassTypes.ContainedIsLower | libsupcxx/src/vmi_class_type_info.cc:91-97 | No class contains itself, so source and target tests can be made in either order |
| Upcast.Upcast | libsupcxx/src/class_type_info.cc:45-56 | On every hierarchy and for every object: success if and only if the first path found, in the order of the search, is one of public bases and one target is seen; this is what section 15.3 paragraph 3 asks, an unambiguous public base, if and only if no public path comes too late and no rival is hidden; the pointer returned is where a path of public bases leads, and where all paths lead unless a rival is hidden; on failure the pointer is left alone |
| Upcast.SecondBaseFound | libsupcxx/src/vmi_class_type_info.cc:328 | A second base at offset 16 is found 16 bytes behind the object |
| Upcast.DoUpcast | libsupcxx/src/vmi_class_type_info.cc:304-388 | The search computes the function Search, whose results SearchShows describes, for every hierarchy, object and null pointer |
| Upcast.SearchShows | libsupcxx/src/vmi_class_type_info.cc:304-388 | For every class, object, mix of access, repetition and virtual bases: nothing, several, or one target seen, public exactly if the first path to it is; what is seen are the targets not behind a first path that is not public |
| Upcast.SucceedsIff | libsupcxx/src/class_type_info.cc:45-56 | An upcast is right if and only if no public path comes too late and no rival is hidden |
| Upcast.NeverMisjudged | libsupcxx/src/vmi_class_type_info.cc:323-325 | Neither happens with only public bases, without repeated bases, or without virtual bases |
| Upcast.PublicBaseMissed | libsupcxx/src/vmi_class_type_info.cc:348-354 | A hierarchy in which an unambiguous public base is not caught |
| Upcast.AmbiguousBaseCaught | libsupcxx/src/vmi_class_type_info.cc:348-368 | A hierarchy in which an ambiguous base is caught |
| Upcast.NullConverts | libsupcxx/src/vmi_class_type_info.cc:370-384 | A hierarchy in which null pointers convert to an ambiguous base, and objects do not |
| Upcast.BaseMerged | libsupcxx/src/vmi_class_type_info.cc:337-384 | One more base with a target in it: the search ends with what it shows of the whole, or goes on with one public target |
| Upcast.NoRepeatUpcast | libsupcxx/src/vmi_class_type_info.cc:323-325 | Without repeated bases, an unambiguous public base is one that some path of public bases reaches |
| Upcast.AllPublicUpcast | libsupcxx/src/vmi_class_type_info.cc:356-368 | With only public bases, an unambiguous public base is exactly one subobject of the class |
| PointerCatch.CatchesPointers | libsupcxx/src/pbase_type_info.cc:32-101 | For pointers of any depth, with cv-qualifiers and promises of functions, a handler matches if and only if the thrown type converts by section 4.4 paragraph 4, to cv void*, to a public base, by dropping promises of a function, or from nullptr_t, or else is a shallower pointer to nullptr_t or drops a promise inside |
| PointerCatch.StandardIff | libsupcxx/src/pbase_type_info.cc:41-91 | The matcher agrees with the standard if and only if no pointer to nullptr_t meets a deeper handler and no promise of a function is dropped below the outermost level |
| PointerCatch.NullptrPointerCaught | libsupcxx/src/pbase_type_info.cc:41-48 | A handler for int** catches a thrown nullptr_t* |
| PointerCatch.NoexceptInsideCaught | libsupcxx/src/pbase_type_info.cc:82-91 | A handler for a pointer to const pointers to functions catches a pointer to pointers to functions that do not throw |
| PointerCatch.InnerLevels | libsupcxx/src/pbase_type_info.cc:72-100 | Below the outermost level the packed depth and const bit compute the level-by-level condition |
| PointerCatch.PeelQuals | libsupcxx/src/pbase_type_info.cc:93-98 | A qualification conversion, stated for all levels at once, is the test of one level and the same for the rest |
| PointerCatch.QualificationIsPreorder | libsupcxx/src/pbase_type_info.cc:93-100 | Qualification conversions are reflexive and transitive |
| PointerCatch.CatchIsPreorder | libsupcxx/src/pointer_type_info.cc:38-52 | Matching of pointers with the same ultimate target is a preorder at any depth |
| ExceptionRuntime.Runtime.AllocateException | libruncxx/eh_alloc.cc:47-68 | Takes what malloc gives, header contents and all, else the first free pool slot, else terminates, and marks exactly that slot |
| ExceptionRuntime.Runtime.FreeException | libruncxx/eh_alloc.cc:70-84 | Gives a slot back to the pool, or else the block to free |
| ExceptionStorage.PoolSafe | libruncxx/eh_alloc.cc:41-58 | Over every legal run, whatever the headers held, headers and objects in the pool lie in its 8 KiB and share no byte, for the sizes that were asked for |
| ExceptionStorage.PoolRefusesIff | libruncxx/eh_alloc.cc:53-64 | After every legal run with fresh throws, when malloc gives nothing, there is no storage if and only if the object is larger than 896 bytes or 8 exceptions are in the pool |
| ExceptionRuntime.Runtime.Throw | libsupcxx/src/eh_throw.cc:71-83 | One more uncaught exception, reference count 1, handler count as it was found |
| ExceptionRuntime.Runtime.BeginCatch | libsupcxx/src/eh_catch.cc:65-79 | The new state of counter, count, list and head |
| ExceptionRuntime.Runtime.EndCatch | libsupcxx/src/eh_catch.cc:107-126 | The new state in all four cases, and when the program terminates |
| ExceptionRuntime.Runtime.DeleteException | libsupcxx/src/eh_throw.cc:29-51 | Destroys and frees when the last reference goes |
| ExceptionRuntime.Runtime.Rethrow | libsupcxx/src/eh_throw.cc:91-117 | Marks the top exception by the sign of its count; without one the program terminates |
| ExceptionLifecycle.UncaughtIffInFlight | libsupcxx/src/eh_catch.cc:130-136 | After any legal run with fresh throws, the counter that uncaught_exception tests is zero if and only if the number of exceptions in flight is a multiple of 2^32; for fewer than 2^32, if and only if there are none |
| ExceptionLifecycle.StepKeeps | libsupcxx/src/eh_catch.cc:38-127 | Every legal call is defined, keeps the invariant, and destroys exactly the exception whose last handler exits while it is not in flight, which is then alive no more |
| ExceptionLifecycle.RunKeeps | libsupcxx/src/eh_throw.cc:71-117 | The invariant holds after every legal run whose throws find zero counts, however often storage is used again, and no call in it terminates the program |
| ExceptionLifecycle.RunKeepsIff | libsupcxx/src/eh_throw.cc:57-83 | A legal run keeps the invariant throughout if and only if all its throws find zero counts |
| ExceptionLifecycle.KeptIffSlotsOnce | libruncxx/eh_alloc.cc:47-84 | If malloc's blocks hold zeros, a legal run keeps the invariant throughout if and only if it throws at most once from each slot of the pool |
| ExceptionLifecycle.BlockUsedAgain | libruncxx/eh_alloc.cc:47-84 | Any number of exceptions can be thrown from one block, each caught and destroyed, the storage handed out anew in between |
| ExceptionLifecycle.CaughtStack | libsupcxx/src/eh_catch.cc:73-79 | After every legal run with fresh throws the caught list is the stack of active handlers with adjacent repeats merged, without duplicates, and the counter is the number of exceptions in flight |
| ExceptionLifecycle.Accounts | libsupcxx/src/eh_catch.cc:65-72 | After such a run the size of an exception's handler count is the number of its active handlers, and its sign tells a rethrown exception in flight; thrown is destroyed plus alive |
| ExceptionLifecycle.AtRest | libsupcxx/src/eh_throw.cc:43-50 | Such a run that ends with nothing handled, in flight or reserved leaves an empty list, a zero counter and a free pool; exceptions were destroyed as often as thrown, and blocks freed as often as given |
| ExceptionLifecycle.EndCatchKeeps | libsupcxx/src/eh_catch.cc:107-126 | The end of a handler keeps the invariant in all cases: rethrown, nested, last |
| ExceptionLifecycle.ThrowKeepsIff | libsupcxx/src/eh_throw.cc:71-83 | At any point of any run, a throw keeps the invariant if and only if its storage holds a zero handler count |
| ExceptionLifecycle.DestroyedIffFresh | libsupcxx/src/eh_throw.cc:57-68 | Thrown, caught and released once, an exception is destroyed if and only if its storage held a zero handler count |
| ExceptionLifecycle.DestructionLeavesOne | libsupcxx/src/eh_catch.cc:115-121 | Storage given back by a destruction holds a handler count of 1 |
| ExceptionLifecycle.SecondThrowStays | libsupcxx/src/eh_throw.cc:57-68 | A second exception in the storage of the first is never destroyed and stays on the caught list |
| ExceptionsOnHeap.MallocAgain | libruncxx/memory.cc:44-90 | Asked for as much again, the heap gives back the block just freed |
| ExceptionsOnHeap.SecondOfOneSize | libruncxx/eh_alloc.cc:47-68 | The second of two exceptions of one size gets the block of the first, even if that was clean before, finds the count 1 and is never destroyed |
| ExceptionSpec.MergedPush | libsupcxx/src/eh_catch.cc:75-79 | Linking a header only when it is not on top keeps the merged stack |
| ExceptionSpec.MergedPop | libsupcxx/src/eh_catch.cc:112-119 | Unlinking only with the last handler keeps the merged stack |
| Personality.FindCallSite | libsupcxx/src/eh_personality.cc:276-299 | The loop over the call-site table is the early-stopping scan |
| Personality.ScanFinds | libsupcxx/src/eh_personality.cc:288-298 | On a sorted table the scan finds an entry that covers the address if and only if there is one, and finds that one |
| Personality.SearchActions | libsupcxx/src/eh_personality.cc:351-409 | The walk along the action chain computes the outcome over the records of the chain |
| Personality.SelectsFirst | libsupcxx/src/eh_personality.cc:357-409 | The outcome is the first matching record; a cleanup is reported only if a zero filter was passed and nothing matched |
| Personality.FollowsExactly | libsupcxx/src/eh_personality.cc:398-400 | Following displacements without a repetition gives a chain of records if and only if it is the chain from there; so the chains followed are exactly the finite ones |
| Personality.Personality | libsupcxx/src/eh_personality.cc:216-474 | What each phase replies, installs and caches, by what the frame wants, for native and foreign exceptions and for forced unwinding; outside all call sites, termination |
| Personality.RuleIff | libsupcxx/src/eh_personality.cc:276-409 | What a frame wants is what its tables say: nothing without tables or without a landing pad; termination outside all call sites; a cleanup; the first record hit, for native and foreign exceptions and forced unwinding; and nothing else |
| Personality.Raise | libsupcxx/src/eh_personality.cc:412-473 | Over every stack of frames, for native and foreign exceptions, phase 1 stops at the innermost frame that handles or terminates; phase 2 enters what the frames inside it want, each frame again where its cleanups resume, and then the landing pad and filter decided in phase 1, which the header has kept or the tables give again; or it ends earlier where a frame entered again stops it |
| Personality.ForcedUnwind | libsupcxx/src/eh_personality.cc:331-345 | Forced unwinding enters what all frames want for its special type, handlers like cleanups, up to a frame that terminates or specifies that nothing is thrown |
| Personality.PassIs | libsupcxx/src/eh_personality.cc:302-330 | A frame is left after its stations have been entered one after the other up to the first that enters nothing, and ends the unwinding exactly if that one handles or terminates |
| Personality.PassBoth | libsupcxx/src/eh_personality.cc:411-474 | The ways out of two stacks make the way out of both |
| Personality.PassOne | libsupcxx/src/eh_personality.cc:411-474 | The way out of one frame |
| Personality.EnteredOnTheWay | libsupcxx/src/eh_personality.cc:437-461 | Forced unwinding is never caught, an exception enters nothing but cleanups, with switch value 0, before it is, and phase 2 comes to the handler frame if no frame inside stops it |
| Personality.SearchFrames | libsupcxx/src/eh_personality.cc:416-429 | Phase 1 finds that frame and leaves filter, landing pad and pointer in the header of a native exception |
| Personality.CaughtIsFirstMatch | libsupcxx/src/eh_personality.cc:403-407 | The installed landing pad is that of the one covering call site and the filter is that of its first matching record |
| Catching.CatchObject | libsupcxx/src/class_type_info.cc:32-56 | On every hierarchy, a handler of class type catches an object exactly if the matcher says so, which is right, the thrown class or an unambiguous public base of it, if and only if the upcast is not misjudged; and then it gets the address of that base |
| Catching.CatchesObjectPointers | libsupcxx/src/pbase_type_info.cc:93-101 | A handler of pointer-to-class type catches a pointer if no qualifier is lost and the upcast succeeds; which is right exactly if a qualifier is lost or the upcast is not misjudged |
| Catching.CaughtByFirstBase | libsupcxx/src/eh_personality.cc:362-377 | A catch clause naming a class runs only if it is the first of its chain to which the thrown object upcasts; where none is misjudged, the first whose class is an unambiguous public base, with the address of that base |
| Heap.Allocator.Malloc | libruncxx/memory.cc:44-81 | The list in memory becomes the sequence with the first fitting chunk carved, nothing else is written, and the pointer is behind its header, or null |
| Heap.Allocator.FindChunk | libruncxx/memory.cc:56-66 | The walk ends at the first chunk that is unused and large enough, or at null if there is none |
| Heap.Allocator.Free | libruncxx/memory.cc:83-90 | Clears the used mark of one chunk and nothing else |
| Heap.Allocator.Take | libruncxx/memory.cc:68-80 | The split, where something of use is left, and the mark turn the chunk into its pieces and touch nothing else |
| Heap.CarvedInMemory | libruncxx/memory.cc:68-79 | The writes of a split change the list in memory exactly as carving changes the sequence |
| Heap.MarkIsTopBit | libruncxx/memory.cc:40 | The used mark is the top bit of the size word, and the rest the size |
| HeapRuns.StepKeeps | libruncxx/memory.cc:44-90 | Every call keeps the regions tiled, all chunk boundaries, and the live blocks in used chunks of at least their size and less than 24 bytes more than that, rounded up to 8 |
| HeapRuns.RunKeeps | libruncxx/memory.cc:44-90 | The same over every sequence of calls, and headers plus sizes always add up to the memory of the regions |
| HeapRuns.BytesConserved | libruncxx/memory.cc:70-76 | Chunks that tile the regions account for every byte |
| HeapRuns.LiveBlocks | libruncxx/memory.cc:50-53 | Live blocks are 8-byte aligned, not null, and pairwise disjoint |
| HeapRuns.HeadersSafe | libruncxx/memory.cc:78-80 | No live block contains a byte of a chunk header |
| HeapRuns.MallocTakesFirst | libruncxx/memory.cc:45-66 | Null if and only if the request is too large or no unused chunk holds it; otherwise the first such chunk, at an address not in use |
| HeapRuns.MallocGivesBack | libruncxx/memory.cc:52-80 | Of the chunk it takes, malloc keeps the size asked for, up to the next multiple of 8; if 24 bytes or more are left, they make a free chunk behind it; nothing else changes |
| HeapRuns.FreeGivesBack | libruncxx/memory.cc:83-90 | Freeing a block makes its chunk free, and changes no other and no size |
| HeapRuns.UsefulIff | libruncxx/memory.cc:50-53 | A request leaves no chunk of less than 8 bytes, exactly if it is not for nothing or the chunk taken is too small to be split |
| HeapRuns.RunUseful | libruncxx/memory.cc:50-76 | Over every run without requests for nothing, no chunk has less than 8 bytes |
| HeapRuns.RestServes | libruncxx/memory.cc:70-76 | What a block of 1046000 bytes leaves over of a mebibyte serves the next request |
| HeapSetup.SetUpHeap | libruncxx/memory.cc:95-147 | A walk along the list built by the region loop sees one chunk for what is left of each qualifying region, in order, up to a chunk at null |
| HeapSetup.Trim | libruncxx/memory.cc:110-134 | The start of the heap in a region, after the kernel, the command line and the alignment |
| HeapSetup.InitialHeap | libruncxx/memory.cc:95-147 | The chunks satisfy the heap invariant, and all are on the list, if and only if no qualifying region starts at 0 after the trimming; every chunk lies inside RAM and starts on a page boundary |
| HeapSetup.GivenIff | libruncxx/memory.cc:100-144 | A region gives to the heap all of what is free from the page boundary behind kernel and command line, exactly if it is RAM and that is a mebibyte or more |
| HeapSetup.KernelSafe | libruncxx/memory.cc:112-115 | No chunk overlaps a kernel that lies inside one region |
| HeapSetup.CommandLineSafe | libruncxx/memory.cc:117-123 | A chunk avoids the command-line page if and only if the page does not reach into it from below its region's start after the kernel |
| HeapSetup.CommandLineKept | libruncxx/memory.cc:117-123 | No chunk overlaps a command-line page that lies in one region and does not straddle the kernel's end |
| HeapSetup.NullChunkIff | libruncxx/memory.cc:125-144 | A chunk lands at null if and only if some region of at least a mebibyte of RAM starts at 0 after the trimming |
| HeapSetup.HeapHidden | libruncxx/memory.cc:125-144 | Two regions of 16 MiB, one of them at 0, of which a walk along the list sees nothing |
| Paging.SystemSetup | boot/x86_64/setup.cc:55-144 | Which heaps are refused, and every table entry afterwards; for a heap that ends beyond 512 GiB, that the first slot is lost |
| Paging.MapHuge | boot/x86_64/setup.cc:124-129 | Exactly the whole gibibytes of the heap get large pages, and where the slot number wraps around |
| Paging.MapRest | boot/x86_64/setup.cc:131-143 | The remainder is mapped page by page through one more directory, and no other entry changes |
| Paging.MapPartial | boot/x86_64/setup.cc:96-122 | The first partial gibibyte goes through the directory installed at start-up or a new one |
| Paging.WalkIsIdentity | boot/x86_64/setup.cc:34-36 | Entries of the expected form translate an address to itself or not at all |
| Paging.IdentityMapped | boot/x86_64/setup.cc:76-143 | After the set-up every heap address, every address below 8 MiB, and the rest of a slot that the heap starts inside is mapped to itself for reading and writing, and no other address is mapped |
| Paging.EntryFlags | boot/x86_64/setup.cc:34-36 | Entries are present and writable, marked as a page where they are one, and carry no other flag |
| Paging.SlotZeroMoves | boot/x86_64/setup.cc:133-142 | Once the first slot is lost, address 0 is translated to something else |
| Paging.LowKeptIff | boot/x86_64/setup.cc:70-74 | The first 8 MiB stay mapped to themselves if and only if the heap ends at or below 512 GiB |
| Paging.HeapPastLimit | boot/x86_64/setup.cc:124-136 | A set-up for a heap from 1 GiB to 513 GiB after which address 0 is no longer mapped to itself |
| Multiboot.FindLargest | boot/x86_64/multiboot.cc:62-82 | Finds a largest available entry at or above 0x1000, the first of them, or none if there is none |
| Multiboot.ParseMultiboot | boot/x86_64/multiboot.cc:55-110 | Publishes nothing, or the inside of the first largest candidate among all entries visited, in 64-bit arithmetic, whatever lies behind the map |
| Multiboot.RightChoiceIff | boot/x86_64/multiboot.cc:66 | Among the entries visited the choice is the one the n entries of the map would give if and only if no candidate behind them is longer; with no candidate in the map, if and only if there is none behind it |
| Multiboot.PublishedRight | boot/x86_64/multiboot.cc:66-109 | With the right choice, what is published is what the map alone would give |
| Multiboot.ReadBehindMap | boot/x86_64/multiboot.cc:66 | A map of one entry behind which a gibibyte is found that is not there |
| Multiboot.InnerInside | boot/x86_64/multiboot.cc:89-103 | What is published is aligned to 2 MiB and ordered; unless it starts at 0, where sums wrap around, it lies inside the entry and is less than 2 MiB short at each end |
| Multiboot.NothingPublishedIff | boot/x86_64/multiboot.cc:89-99 | Nothing is published for an entry if and only if it has no boundary of 2 MiB inside, or its end wraps around while its aligned start does not |
| Multiboot.FromMapToTables | boot/x86_64/setup.cc:60-74 | For every map, the heap length in the set-up does not underflow, a region that is not inside the chosen entry is refused, and one that ends at or below 512 GiB is mapped to itself throughout |
| Strtoul.Strtoul | libsupcxx/src/cstring.cc:112-169 | For base 0 and bases 2 to 36: the exact value of the digit run that the code sees, negated modulo 2^64 after a minus, or the maximum; and where parsing ended. Both are what section 7.22.1.4 of ISO C asks if and only if none of the three departures occurs |
| Strtoul.Accumulate | libsupcxx/src/cstring.cc:136-159 | The digit loop reads the whole run, never wraps, and knows whether the value fits |
| Strtoul.CutoffExact | libsupcxx/src/cstring.cc:152-153 | The comparison with cutoff and cutlim is the comparison of the next value with the maximum |
| Strtoul.ReadPrefix | libsupcxx/src/cstring.cc:119-135 | Blanks, sign and base prefix as the code reads them |
| Strtoul.LastLetterLost | libsupcxx/src/cstring.cc:46-48 | Z in base 36 is worth 35 but read as 0 |
| Strtoul.RightIff | libsupcxx/src/cstring.cc:112-169 | Result and end are those of the standard if and only if only blanks and tabs precede a number, no 0x without a hexadecimal digit is read in base 0 or 16, and the digits hold no z or Z in base 36; the result alone is right whenever only blanks and tabs precede and the base is not 36 |
| Strtoul.BareXSeen | libsupcxx/src/cstring.cc:128-132 | Of a 0x without a digit the standard takes the 0 and the code nothing |
| Strtoul.OtherSpace | libsupcxx/src/cstring.cc:54-56 | Behind other white space the code sees no number |
| Strtoul.BareXLost | libsupcxx/src/cstring.cc:128-132 | Parsing 0xg ends behind the 0 by the standard, and at the start in the code |
| Strtoul.SecondLineLost | libsupcxx/src/cstring.cc:54-56 | A number behind a line feed is read as 0 |
| Ntoa.NtoaLong | io/printf.cc:263-283 | What is sent out is the rendering of value, sign, base, precision, width and flags |
| Ntoa.NtoaFormat | io/printf.cc:209-259 | Padding, prefix and sign in the buffer, each as far as it has room |
| Ntoa.WriteDigits | io/printf.cc:273-280 | The buffer holds the digits, least significant first, cut off at 32 |
| Ntoa.OutRev | io/printf.cc:181-205 | The buffer is sent back to front between the blanks that fill the width |
| RoundTrip.DigitsValue | io/printf.cc:275-279 | The digits written have the value they were made from |
| RoundTrip.ReadBack | libsupcxx/src/cstring.cc:112-169 | What is printed without a base prefix parses to the value, with its sign unless zeros fill the buffer |
| RoundTrip.RoundTripIff | io/printf.cc:246-256 | The round trip gives the value back, modulo 2^64 when negative, if and only if it is not the case that a negative number is printed aligned to the right with a precision of 32 or more or zeros up to a width of 33 or more, or the sign makes no difference |
| RoundTrip.MinusOneLost | io/printf.cc:219-256 | -1 printed with %033d is read back as 1 |
| RoundTrip.BufferFullIff | io/printf.cc:211-222 | Zeros fill the buffer if and only if the precision is 32 or more, or zeros pad up to a width of 33 or more, and nothing is aligned to the left |
| RoundTrip.PrefixedRoundTrip | io/printf.cc:224-244 | With the base prefix alone, octal and hexadecimal numbers parse in base 0 to the value |
| Printf.Vsnprintf | io/printf.cc:546-812 | A format made of directives sends out the concatenation of their texts, in order, with flags, widths, precisions and values taken from the arguments in order, and returns the number of characters sent |
| Printf.ReadFlags | io/printf.cc:570-581 | The flags are the set of flag characters written, in any order and number |
| Printf.Atoi | io/printf.cc:168-175 | The value of the digit run, modulo 2^32 |
| Printf.ReadWidth | io/printf.cc:583-598 | Written, from an argument with left alignment if negative, or none |
| Printf.ReadPrecision | io/printf.cc:600-613 | Written, from an argument but not negative, or zero |
| Printf.EmitInteger | io/printf.cc:657-719 | Base, case and flag rules of the integer conversions |
| Printf.EmitString | io/printf.cc:755-779 | The string cut to the precision and aligned to the width |
| PrintfGrammar.Unambiguous | io/printf.cc:556-805 | A format reads as directives in one way only |
| PrintfFields.WidthAddsBlanks | io/printf.cc:224-231 | With blank padding, a width adds blanks on one side and does nothing else, if and only if it does not equal the number of digits of a number with a prefix |
| PrintfFields.AllDigitsEaten | io/printf.cc:226-244 | 27 printed with %#2x is 0x |
| PrintfFields.ZeroPaddedField | io/printf.cc:211-222 | With zero padding up to 32, the field is the sign, zeros up to the width, and the digits |
| PrintfFields.FieldOfDirective | io/printf.cc:650-779 | Characters, strings and blank-padded integers fill the larger of their width and their text, except where digits are eaten |
| PrintfFields.PrintThenParse | io/printf.cc:688-716 | What an integer conversion without a base prefix prints, the parser reads back as the same 64-bit word, if and only if the sign is not lost or makes no difference |
| PrintfStandard.ConformsIff | io/printf.cc:209-259 | A number of any integer conversion (d, i, u, x, X, o), with any flags, width and precision, is printed as section 7.21.6.1 of ISO C prescribes if and only if it meets a condition on flags, width, precision and the number of digits |
| PrintfStandard.PlainIff | io/printf.cc:211-222 | Numbers without a prefix: right unless a precision above the number of digits meets left alignment, or zeros fill the buffer |
| PrintfStandard.HexIff | io/printf.cc:224-244 | Hexadecimal numbers with 0x: right unless in addition the prefix finds no room or overwrites digits |
| PrintfStandard.OctalIff | io/printf.cc:224-244 | Octal numbers with a leading zero: right unless in addition one zero too many is printed |
| PrintfStandard.OmittedIff | io/printf.cc:609-611 | A negative precision: right if and only if the value is not 0 and zeros would not have padded it |
| PrintfDirectives.TextIsStandardIff | io/printf.cc:556-719 | A directive for an integer prints what the standard prescribes for the characters of its flags, the numbers or arguments for width and precision, and the type that its length names, if and only if it meets that condition and its numbers are below 2^32 |
| PrintfDirectives.CharacterIff | io/printf.cc:736-753 | A character is printed as prescribed if and only if its width is below 2^32 |
| PrintfDirectives.StringIff | io/printf.cc:755-779 | A string is printed as prescribed if width and precision allow it; without a width, exactly if its precision is not negative and below 2^32, or takes nothing away |
| PrintfDirectives.PointerText | io/printf.cc:781-793 | A pointer is printed as 16 hexadecimal digits where no flag asks for more |
| PrintfDirectives.BinaryText | io/printf.cc:273-280 | A number printed in binary is read back as its remainder modulo 2^32 |
| PrintfDirectives.BinaryPrefixed | io/printf.cc:224-244 | With the prefix 0b where there is room for it |
| PrintfDirectives.FormatPrinted | io/printf.cc:556-812 | A format of directives that conform, each served by the next arguments, is printed as prescribed |
| PrintfDirectives.SignWritten | io/printf.cc:576-577 | 5 printed with %+d is +5, and with a blank flag it has a blank in front |
| PrintfDirectives.PrecisionLost | io/printf.cc:211-222 | 7 printed with %-.3d is 7 instead of 007 |
| PrintfDirectives.DigitLost | io/printf.cc:224-231 | 255 printed with %#03x is 0xf instead of 0xff |
| HashBytes.HashBytes | libsupcxx/src/hash_bytes.cc:132-158 | For lengths with bit 31 clear, the loop over blocks and the tail compute the fold of the mixing steps over the bytes that the length, cut to an int, covers |
| HashBytes.LoopEndsIff | libsupcxx/src/hash_bytes.cc:139-148 | The loop over the blocks comes to its end if and only if bit 31 of the length is clear; otherwise the end lies before the input |
| HashBytes.LoadBytes | libsupcxx/src/hash_bytes.cc:49-58 | Loads the little-endian number of the first n bytes |
| HashBytes.PaddedLoad | libsupcxx/src/hash_bytes.cc:149-154 | The tail is loaded as if padded with zero bytes to a whole block |
| HashBytes.LoadInjective | libsupcxx/src/hash_bytes.cc:39-45 | Up to 8 bytes are determined by the number loaded and their count |
| HashBytes.HashTellsBlocksApart | libsupcxx/src/hash_bytes.cc:132-158 | Two inputs of one length, bit 31 of which is clear, that differ only inside one block, or only in the tail, hash alike if and only if they agree in the bytes looked at; below 2 GiB, if and only if they are equal |
| HashBytes.HashInjectiveInSeed | libsupcxx/src/hash_bytes.cc:142-157 | For fixed input the hash is injective in the seed |
| HashBytes.EmptyHashed | libsupcxx/src/hash_bytes.cc:132-158 | With the seed of std::hash, the hash of the empty string |
| HashBytes.LetterHashed | libsupcxx/src/hash_bytes.cc:132-158 | The hash of a |
| HashBytes.NineLettersHashed | libsupcxx/src/hash_bytes.cc:132-158 | The hash of abcdefghi, a block and a tail |
| HashBytes.FnvHashBytes | libsupcxx/src/hash_bytes.cc:164-174 | The loop computes the fold, with chars sign-extended |
| HashBytes.FnvTellsBytesApart | libsupcxx/src/hash_bytes.cc:164-174 | Changing exactly one byte always changes the FNV hash |
| HashBytes.FnvInjectiveInSeed | libsupcxx/src/hash_bytes.cc:164-174 | For fixed input the FNV hash is injective in its start value |
| HashBytes.FnvIsFnv1a | libsupcxx/src/hash_bytes.cc:160-174 | ASCII strings get their FNV-1a hash |
| HashBytes.FnvIsNotFnv1a | libsupcxx/src/hash_bytes.cc:160-174 | Strings with one other character never do |
| HashBytes.FnvOfLetter | libsupcxx/src/hash_bytes.cc:164-174 | FNV-1a of a, from the offset basis |

## Left out

- DynamicCast.DynamicCast: does not cover hierarchies that mix virtual bases with non-public or repeated ones, where the first path found to the target can hide a more accessible one; nor searches that compare several targets of which one misleads before the source is seen, where the answer depends on the order in which the search meets them.
- DynamicCast.CastWithAndWithoutHint: leaves out the same hierarchies.
- DyncastSearch.DoDyncast: leaves out the same hierarchies.
- Upcast.Upcast: which conversions of null pointers are right is not characterised; Search covers them, and NullConverts shows that some are not.
- PointerCatch.CatchesPointers: pointers to members and the adjustment of the thrown pointer are not modelled; the class upcasts it asks for are a parameter, filled in by Catching.
- ExceptionLifecycle.RunKeeps: after a throw that finds a count other than zero, only the fate of that one exception is followed.
- ExceptionLifecycle.StepKeeps: the same for one call; ExceptionLifecycle.ThrowKeepsIff says when the invariant is lost.
- ExceptionRuntime.Runtime.BeginCatch: handler and reference counts are unbounded integers; the uncaught counter wraps at 2^32.
- Personality.Raise: the addresses at which cleanups resume are given; what cleanups and handlers do, and `__cxa_call_unexpected`, are not modelled.
- Personality.ForcedUnwind: every handler that is entered resumes the unwinding, and the stop function lets it go on to the end of the stack.
- Heap.Allocator.Malloc: memory is a map of headers; what the program writes into its blocks is not modelled.
- HeapSetup.SetUpHeap: assumes disjoint regions below 2^63.
- Strtoul.Strtoul: bases other than 0 and 2 to 36; errno does not exist here.
- Printf.Vsnprintf: formats with a dangling `%`, with floating-point conversions, or with a conversion character that is itself a flag, digit, `*`, `.` or length letter; the absolute value of the most negative integer is taken without overflow.
- HashBytes.HashBytes: lengths whose bit 31 is set, for which the loop never ends (HashBytes.LoopEndsIff); the 32-bit variants.
- Dependent exceptions, and foreign ones in the runtime's catch and rethrow functions.
- Decoding of LEB128 numbers and encoded pointers: the exception tables are taken as decoded sequences.
- Pointers to members in the pointer matcher, and the adjustment of the thrown pointer itself.
- The page tables for the Raspberry Pi, which have neither mixed page sizes nor partial slots.
- The character sinks of the printer: console output drops NUL characters, and the bounded buffer keeps the first ones.
- `operator new` and `delete`, `__cxa_finalize`, guards, VGA, system calls, inline assembly and the headers of compile-time tables.
