# Verification of the Lama runtime and its RISC-V compiler

This project models the hard core of the repository in Dafny and proves properties of the model:

* **The garbage collector** (`runtime/gc.c`): a sliding mark-compact collector over a flat heap of words. Marking is
  breadth-first and threads its queue through the forward words of the heap's own objects; compaction computes prefix
  sums, copies the heap to a fresh chunk, rewrites pointers by offset arithmetic between the two chunks and slides the
  objects left in place. The class `Collector.Heap` has the runtime's fields and one method per C function; heap states
  are described by the value `Layout.Snapshot`. The end of the chain is `Collector.Heap.Collect`: the reachable graph is
  preserved up to the renaming of addresses and exactly the reachable objects survive. On top of it come the allocation
  functions, the constructors, the invariance of abstract values under collections, and runs of any length.
* **The compiler from bytecode to RV64** (`comp/`): the class `Compiler.Compiler` has the compiler's fields (symbolic
  stack height, current frame, the `done` and `todo` maps, the output) and one method per emission function, proved
  against a specification of the emitted lines (`Lowering`) and of the driver (`Worklist`). About that specification it
  is proved that the driver ends and exactly when it succeeds, that static heights are right for every run, that labels
  link, what the runtime is passed, and that compiled code follows the stack machine: steps, runs, and complete calls with
  recursion of any depth (`Correctness`).
* **Value-level runtime functions** (`runtime/runtime.c`): structural comparison, the bounded-depth hash and the 6-bit tag
  hash, as methods over the heap, proved against functions on abstract values. Their laws are proved separately, and
  `WordRules` says in terms of the words of a heap what comparison and hash answer.

Modules, in dependency order: `Words`, `Layout`, `Marking`, `Compaction`, `Survival`, `Roots`, `Collection`, `Allocation`,
`Values`, `Construction`, `Runs`, `Collector`; `TagHash`, `Ordering`, `Hashing`, `Runtime`, `WordRules`; `Rv64`, `Bytecode`,
`Lowering`, `Operators`, `Worklist`, `Linking`, `Heights`, `Schedules`, `Labelling`, `Compiler`, `Blocks`, `Steps`,
`Delegation`, `Relation`, `Simulation`, `Calls`, `Correctness`, `Frames`, `MainFunction`, `Deviations`, `Example`.

## How the source is represented

* A heap chunk is an array of unsigned 64-bit words with a byte address `begin`; positions in it are word offsets. The bit
  operations on forward words are arithmetic on the two low bits. `memmove` of a string copies whole words and then the
  remaining bytes of the last one.
* The roots are three arrays (the stack from `__gc_stack_top` to one word past the last scanned one, the static area, and
  the C variables that only extra roots refer to) and the pool of 32 registered slots. The address that `mmap` returns is a
  parameter; a chunk that does not fit or overlaps the old one is its failure.
* A failed `DCHECK`, `LOG(FATAL)`, `exit` or failure of the runtime is an explicit outcome of the method concerned.
* `unordered_map::begin()` may give any entry of `todo`: the driver's loop takes an arbitrary one, and its result is stated
  for the order (`schedule`) in which the entries were taken.
* Compiled code is a list of lines whose positions serve as code addresses. Comments and the data section are not lines;
  the addresses of its symbols are part of the machine's state.
  RISC-V division and remainder follow section 7.2 of the RISC-V Unprivileged ISA, version 20191213; the stack alignment is
  that of section 2.1 (Integer Calling Convention) of the RISC-V ABIs Specification, version 1.0.
* The stack machine of `Bytecode` enters a function in one step (call and `Begin`), gives locals no value before they are
  stored to, and applies the runtime's `Ls__Infix_*` functions.

## Where the code falls short of a property

Some properties hold only under a condition; the code is modelled as it is and the condition is proved exact.

* `&&` and `!!` are compiled to bitwise operations, `==` to a comparison without the lowest bits of its operands, and `-` of
  two pointers to half their distance. `Operators.BinopExact` says for all words the runtime accepts when the compiled
  operator agrees with the runtime's; `Operators.BothDiffers`, `Operators.EitherDiffers` and `Operators.EqualDiffers` are
  operands on which it does not.
* A constant is boxed in 32 bits (`Operators.ConstExact`), and so is the hash of a tag: compiled code gives two tags the same
  word exactly when their hashes agree in the lowest 31 bits (`Operators.TagWordExact`), as those of `TypeError` and
  `NameError` do (`Operators.ErrorTagsCollide`). Tags of up to five characters keep their hash.
* The compiler has one current frame, set by the last `Begin` it compiled. A jump target taken from `todo` after another
  function has been compiled gets that function's frame, so its epilogue restores registers from the wrong words.
  `Frames.FrameLeaks` is a program and an order in which this happens, `Frames.LeakReturns` a run of its code that gives the
  caller another register's word for its frame pointer, and `Frames.EpilogueExact` says when an epilogue is right: exactly
  when it was compiled for as many locals as the prologue. The simulation therefore asks that a jump and its target were
  compiled for frames with equally many locals, which can be read off the chunks. For the same reason the driver may find an
  index out of range in one order and not in another: `Labelling.DriverExact`, which says when it finishes in every order,
  asks that an index be one of every function that is reached.
* The symbolic height of the compiler is that of the operands everywhere but in `main`, where it is one higher: the call of
  `__init` in the prologue leaves a result that no instruction of the bytecode pushed. `Heights.RunHeightsSound` says so for
  all runs, and says when an operand can be missing: never outside `main`, and in `main` exactly when an instruction takes
  as many operands as the compiler has counted. `Example.MainUnderflows` is a program that the compiler accepts and that
  takes an operand that is not there.
* The result of a call in stack positions 11 to 14 is overwritten by the restored temporary (`Blocks.AfterBlock`).
* A store to one of the first eight arguments moves in the opposite direction (`Steps.StoreArgumentBackwards`).
* Of more than eight arguments a call passes the last ones in registers and the first ones on the stack
  (`Deviations.ManyBlock`), where the callee looks for the others; and it reads an argument from the stack at a distance of
  as many bytes as it should be words (`Deviations.StackArgumentBlock`).
* A store through a pointer leaves the pointer on top instead of the value (`Deviations.StoreStackBlock`).
* Beyond the fifteen registers of the operand stack, operators work on words below the stack pointer, constants are stored
  below the frame pointer, and shifts, which box and unbox, and moves into a position store nothing
  (`Deviations.SpilledOperator`, `Deviations.SpilledConstant`, `Deviations.SpilledImmediate`, `Deviations.SpilledMove`).
* `main` calls `__init` before it saves registers: with an odd number of locals the stack pointer is then not aligned
  (`MainFunction.InitReady`), and the result overwrites s1, so that `main` does not give its caller's s1 back
  (`MainFunction.MainBegun`).
* `Lcompare` boxes a difference of words, which may overflow. `Ordering.CompareSignExact` says when the result orders like
  the exact difference: that depends on bit 62 of the first difference that boxing does not erase. `Ordering.CompareZeroExact`
  says when it is zero: exactly on values equal up to bit 63 of code words, tags and foreign words. `Ordering.FarIntegersSwap`
  and `Ordering.FarCodeWordsCollide` are values that come out wrong, and `Ordering.ModestPreorder` is a bound on the words of
  each value under which the order is right.
* `Lhash` does not hash alike all that `Lcompare` calls equal: `Hashing.EqualClosuresHashApart` has two closures whose code
  words differ in bit 63. Values that compare as equal are structurally equal if and only if the code words, tags
  and foreign words compared agree in that bit (`Ordering.EqualExact`), and then they hash alike
  (`Hashing.EqualWordsHashEqually`). `Ordering.Bounded` is a bound on the words of each value alone under which this is so;
  negative tags, which narrowing produces, meet it.
* The `BOX` of `comp/include/runtime.h:4` has no parentheses around its argument, so an s-expression of n members is compiled
  with the operand count 2n + 2 where 2n + 3 is meant (`comp/src/emit.cpp:35`). The model has 2n + 2 (`Lowering`). Shifting
  out the lowest bit gives n + 1 from either.

## Model

| member | source | states |
|---|---|---|
| Words.SetForwardAddress | runtime/gc.h:37-37 | Writing an address into a forward word replaces any stale address and disturbs neither flag bit |
| Words.MakeEnqueued | runtime/gc.h:29-29 | The enqueued bit is set; mark bit and address stay |
| Words.MakeDequeued | runtime/gc.h:30-30 | The enqueued bit is cleared; mark bit and address stay |
| Words.SetMarkBit | runtime/gc.h:27-27 | The mark bit is set; enqueued bit and address stay |
| Words.ResetMarkBit | runtime/gc.h:31-31 | The mark bit is cleared; enqueued bit and address stay |
| Words.MergeBytes | runtime/gc.c:491-491 | A copy of whole bytes takes exactly the copied bytes from the source word and leaves the others |
| Words.ByteExact | runtime/gc.c:491-491 | The bytes of a word are its digits in base 256, the lowest one first |
| Layout.MakeHeader | runtime/gc.c:908-922 | The header an allocation writes reads back as the kind and length asked for |
| Layout.HeadersExact | runtime/runtime_common.h:25-28 | The header words of the four kinds as numbers: tags 1, 3, 5 and 7 below the length |
| Layout.SizesExact | runtime/gc.c:743-749 | The words of an object and the offset of its first field, kind by kind, as numbers |
| Layout.SizeWords | runtime/gc.c:743-749 | Objects advance by whole words: no less than their bytes, less than a word more, and exactly their bytes unless they are strings |
| Layout.Tiles | runtime/gc.c:738-751 | Iterating from the start of the heap visits whole objects: each lies below the current end and below every later header |
| Layout.NotForwardWord | runtime/gc.c:845-864 | No field, header or extra word of an object is the forward word of any object, so queue writes never change the graph |
| Marking.ClosedContainsReachable | runtime/gc.c:524-554 | A set that is closed under pointer fields and holds the roots holds everything reachable |
| Marking.ReachableUnion | runtime/gc.c:249-274 | What is reachable from two root sets is the union of what is reachable from each |
| Marking.QueueHasRoom | runtime/gc.c:507-513 | As long as some object was never enqueued, the queue's tail is still inside the heap: each object is enqueued once at most |
| Marking.PushQueue | runtime/gc.c:507-513 | Writing the tail slot keeps the queue a FIFO of distinct objects with the new one last, all flag bits of other objects untouched |
| Marking.PopQueue | runtime/gc.c:515-522 | The head slot holds the oldest enqueued object, and the rest of the queue is unchanged after dequeuing it |
| Marking.PushWalk | runtime/gc.c:541-551 | Enqueuing the target of a field that is neither marked nor enqueued keeps every fact of the walk, with the field now covered |
| Marking.PopWalk | runtime/gc.c:536-540 | Dequeuing and marking keeps the walk's facts except that the fields of that one object are still to be scanned |
| Marking.WalkEnds | runtime/gc.c:536-554 | With the queue empty the marked set is the old one plus everything reachable from the root, closed under fields, and nothing is enqueued |
| Marking.SameReachable | runtime/gc.c:702-736 | Changing forward words only leaves reachability as it was |
| Collector.Heap.constructor | runtime/gc.c:589-605 | The runtime starts with an empty sound heap of the minimum capacity and an empty pool |
| Collector.Heap.QueueEnqueue | runtime/gc.c:507-513 | The tail object's forward word holds the object, the object is flagged, nothing else changes, the tail advances by one object |
| Collector.Heap.QueueDequeue | runtime/gc.c:515-522 | Gives the object stored at the head, unflags it and nothing else, the head advances by one object |
| Collector.Heap.FirstPointerField | runtime/gc.c:845-852 | Only unboxed fields are skipped before the first pointer field |
| Collector.Heap.NextPointerField | runtime/gc.c:856-860 | Only unboxed fields are skipped between two pointer fields |
| Collector.Heap.ScanFields | runtime/gc.c:540-552 | After the loop over an object's fields every heap pointer in them leads to a marked or enqueued object |
| Collector.Heap.Mark | runtime/gc.c:524-554 | Ends, with the marked set equal to the old one plus everything reachable from the argument, again closed; only forward words change |
| Collector.Heap.ScanStack | runtime/gc.c:243-247 | Adds exactly what is reachable from the scanned stack words |
| Collector.Heap.ScanExtraRoots | runtime/gc.c:556-561 | Adds exactly what is reachable from the words that registered slots hold |
| Collector.Heap.ScanGlobalArea | runtime/gc.c:564-569 | Adds exactly what is reachable from the static area |
| Collector.Heap.MarkPhase | runtime/gc.c:249-274 | The marked set is precisely the set of objects reachable from all scanned roots |
| Compaction.LiveBeforeOrder | runtime/gc.c:305-328 | Prefix sums never decrease, leave room for each live object, and never exceed the object's own offset |
| Compaction.ImageBounds | runtime/gc.c:305-328 | An image never lies to the right of its source and ends within the live size |
| Compaction.ImagesApart | runtime/gc.c:305-328 | Images of distinct objects are disjoint and keep their order, strings with padded tails included |
| Collector.Heap.ComputeLocations | runtime/gc.c:305-328 | Each marked object's forward address is the begin of the heap plus the exclusive prefix sum of the live sizes; flags and everything else stay; the result is the live size |
| Compaction.FixedOnce | runtime/gc.c:334-345 | A rewritten pointer is a valid word between the new contents and falls outside the old inclusive range, so a second rewriting leaves it alone |
| Collector.Heap.Redirect | runtime/gc.c:436-446 | The offset arithmetic between the chunks yields the content address of the image of the old target |
| Collector.Heap.FixFields | runtime/gc.c:430-458 | All heap pointers of one marked object are redirected, once each |
| Collector.Heap.FixHeap | runtime/gc.c:427-461 | Every pointer field of every marked object is redirected; unmarked objects, headers, tags, code words and strings are as copied |
| Collector.Heap.FixRegion | runtime/gc.c:330-350 | Every word of the region that pointed into the old chunk refers to its target's image; all other words are unchanged |
| Collector.Heap.FixExtraRoots | runtime/gc.c:352-421 | Slots on the stack and in the static area are skipped; every other registered slot is redirected exactly once even when registered twice |
| Roots.RedirectedOnce | runtime/gc.c:338-345 | A redirected root no longer lies in the old range |
| Collector.Heap.UpdateReferences | runtime/gc.c:423-475 | Fields of all marked objects and all three root areas are redirected, each location once |
| Compaction.SlideMarked | runtime/gc.c:487-493 | Moving one object keeps all moved objects byte-equal to their sources but for the mark bit, and leaves every object still to be visited intact |
| Compaction.SlideTarget | runtime/gc.c:484-491 | At every iteration the next object still carries its own mark bit and forward address |
| Collector.Heap.MoveBytes | runtime/gc.c:491-491 | A downward copy of bytes, overlapping or not, has the effect of memmove |
| Collector.Heap.PhysicallyRelocate | runtime/gc.c:477-499 | Every marked object ends up at its image, equal to its source but for the cleared mark bit |
| Survival.ImagesAreAll | runtime/gc.c:295-298 | The headers of the new heap are exactly the images of the marked objects |
| Survival.CompactionKeeps | runtime/gc.c:276-303 | Kind, length, string bytes, code word, tag and non-heap words survive; heap pointers become pointers to images; flags are clear |
| Survival.NewHeapParses | runtime/gc.c:295-298 | The compacted chunk is a concatenation of whole objects up to the live size |
| Survival.NewHeapValid | runtime/gc.c:276-303 | In the new heap every in-range pointer, the rest of the chunk included, is the content pointer of an object |
| Survival.EdgesPreserved | runtime/gc.c:276-303 | There is a pointer between two images if and only if there was one between their sources |
| Survival.ImageInjective | runtime/gc.c:305-328 | No two live objects share an image |
| Survival.ReachPreserved | runtime/gc.c:276-303 | Paths from the roots are carried over |
| Survival.OnlyReachableSurvive | runtime/gc.c:199-241 | Everything in the new heap is reachable from the new roots |
| Roots.NextHeapSize | runtime/gc.c:279-282 | The chunk never shrinks, has 64 words or more, holds twice the live words plus the request, and is the smallest to do so |
| Collector.Heap.CompactPhase | runtime/gc.c:276-303 | Succeeds exactly when the system's address fits; then the survivors of the marked set make up the new heap and all roots are redirected |
| Collection.CollectionCorrect | runtime/gc.c:199-241 | Marking then compaction gives a sound heap that is the image of the reachable graph, every root redirected to its image, nothing unreachable left |
| Collection.RoomAfterCollection | runtime/gc.c:276-303 | After a collection the request fits, whatever was live |
| Collector.Heap.Collect | runtime/gc.c:199-241 | One garbage collection: exactly the reachable objects survive, the graph and every root keep their meaning, the request fits |
| Collector.Heap.AllocOnExistingHeap | runtime/gc.c:189-197 | Hands out cleared words at the current end if they fit and nothing otherwise |
| Collector.Heap.Alloc | runtime/gc.c:58-83 | Fails only when a collection is needed and the system has no chunk; otherwise cleared words in the same or in the collected heap |
| Allocation.ExtendedSound | runtime/gc.c:892-957 | A freshly allocated object keeps the heap sound: no stale word becomes a pointer to it |
| Allocation.RootsSoundAfterCollection | runtime/gc.c:199-241 | The root areas meet their invariant again after a collection |
| Allocation.RootsSoundAfterAllocation | runtime/gc.c:892-957 | The root areas meet their invariant after an allocation |
| Collector.Heap.AllocObject | runtime/gc.c:892-957 | The new object is the last one of a sound heap, with cleared contents; no other object or root changes unless a collection came first |
| Collector.Heap.PushExtraRoot | runtime/gc.c:622-630 | The pool grows by one slot on top, or overflows at 32 |
| Collector.Heap.PopExtraRoot | runtime/gc.c:632-642 | Succeeds exactly when the slot is on top of the pool, and removes it |
| Runs.StepKeepsInvariant | runtime/gc.c:189-241 | Allocation, collection, assignment, writes of code words, tags and string bytes, copies of whole objects, growth and shrinking of the stack, and root operations all keep heap and roots sound and never shrink the chunk |
| Runs.StoreWordKeeps | runtime/runtime.c:805-901 | Any word may be written into an object's contents if, where a field is meant, it is no stray heap pointer: code words, tags and string bytes are free |
| Runs.CopyKeeps | runtime/runtime.c:535-550 | Copying an object word for word over one of the same kind and length, stale forward address included, keeps the heap sound |
| Runs.AllocateKeeps | runtime/gc.c:58-83 | The allocation retried after a collection always fits |
| Runs.RunsAreSafe | runtime/gc.c:189-303 | The invariant holds after any sequence of operations |
| Values.ValueKept | runtime/gc.c:276-303 | A redirected word stands for the same abstract value, to any depth, also on cyclic structures |
| Values.CollectionInvisible | runtime/gc.c:199-241 | No program can tell from the value of a root, to any depth, that a collection took place |
| Values.CollectionKeepsIdentity | runtime/gc.c:199-241 | Nor from sharing: two paths from roots end at the same word after a collection if and only if they did before, and the same paths exist |
| Values.PreparedInvisible | runtime/gc.c:58-83 | The same for an allocation that may or may not collect |
| Values.PreparedIdentity | runtime/gc.c:58-83 | Two roots are the same word after the allocation if and only if they were before |
| Construction.FilledValue | runtime/runtime.c:844-846 | An object filled with words stands for a node of their values |
| Construction.ArgumentKept | runtime/runtime.c:838-846 | A registered argument word still stands for its old value after the allocation |
| Construction.BuiltObject | runtime/runtime.c:832-901 | Filling after a possible collection gives a sound heap and a node of the values the arguments had before |
| Construction.UnregisteredSound | runtime/runtime.c:832-901 | Once the arguments are off the pool again, the root areas meet their invariant with the filled object in the heap |
| Construction.UnregisteredKept | runtime/runtime.c:832-901 | Once the arguments are off the pool again, every scanned root has the value it had before the call, to any depth, and roots are equal words exactly when they were |
| Collector.Heap.Construct | runtime/runtime.c:805-901 | Exact condition for success; the object is built from the arguments' values before the call, the root invariant holds again, every other root keeps value and identity, and the pool ends as it began |
| Collector.Heap.Barray | runtime/runtime.c:832-854 | An array of the argument values, also when allocation collects; heap and roots are again as a next call needs them, with every root's value kept |
| Collector.Heap.Bclosure | runtime/runtime.c:805-829 | A closure of the code word and the captured values, heap and roots as after Barray |
| Collector.Heap.Bsexp | runtime/runtime.c:874-901 | An s-expression of the member values under the unboxed tag, heap and roots as after Barray |
| TagHash.DeHash | runtime/runtime.c:242-255 | The buffer, from the returned position, holds the base-64 digits of the number, terminated |
| TagHash.Accumulate | runtime/runtime.c:223-235 | The scan succeeds exactly when the first ten characters are in the alphabet |
| TagHash.CodesExact | runtime/runtime.c:211-211 | The alphabet has exactly the underscore, the small letters, the capitals, the digits and the quote, with these codes |
| TagHash.DigitsOfNumber | runtime/runtime.c:219-255 | Decoding gives back an encoded string exactly when it does not begin with an underscore |
| TagHash.LtagHash | runtime/runtime.c:219-240 | Succeeds exactly on tags whose ten-character prefix is in the alphabet and which do not begin with an underscore; decoding the unboxed result gives that prefix |
| TagHash.NumberInjective | comp/src/runtime.cpp:22-45 | Tags hash alike exactly when their ten-character prefixes are equal (the compiler's copy computes the same number, which it then narrows: Operators.TagWordExact) |
| TagHash.NumberIsSmall | runtime/runtime.c:231-231 | The hash stays below 2 to the 60, so boxing loses nothing |
| Ordering.DifferenceAntisymmetric | runtime/runtime.c:628-686 | Swapping the operands negates the deciding difference, across unboxed, heap and foreign words |
| Ordering.DifferenceZero | runtime/runtime.c:628-686 | No difference exactly on structurally equal values, strings up to their first zero byte |
| Ordering.DifferenceTransitive | runtime/runtime.c:628-686 | The order is transitive, and equal only through equals |
| Ordering.CompareExact | runtime/runtime.c:629-632 | Boxing keeps the very difference if and only if it fits 63 bits |
| Ordering.CompareSignExact | runtime/runtime.c:628-686 | Lcompare orders two values as their exact difference does if and only if the first difference that boxing does not erase has the right bit 62; unless it is erased that is the difference itself |
| Ordering.ComparePreorder | runtime/runtime.c:628-686 | Where differences fit, Lcompare is antisymmetric, transitive and zero exactly on equals |
| Ordering.ModestPreorder | runtime/runtime.c:628-686 | On values whose integers and tags have 62 bits and whose addresses lie below 2 to the 62, Lcompare is antisymmetric, transitive and zero exactly on equals |
| Ordering.CompareZeroExact | runtime/runtime.c:628-686 | Lcompare is zero if and only if the values are equal up to bit 63 of code words, tags and foreign words |
| Ordering.EqualExact | runtime/runtime.c:628-686 | Values are structurally equal if and only if Lcompare is zero and the code words, tags and foreign words compared agree in bit 63 |
| Ordering.BoundedZero | runtime/runtime.c:628-686 | With code words and foreign words below 2 to the 63 and tags of 63 bits, negative ones included, Lcompare is zero exactly on structurally equal values |
| Ordering.FarCodeWordsCollide | runtime/runtime.c:655-655 | Two closures with different non-zero code words and captures that Lcompare calls equal |
| Ordering.FarIntegersSwap | runtime/runtime.c:637-637 | Two integers that Lcompare orders the wrong way round |
| Runtime.StrCmp | runtime/runtime.c:652-652 | The difference at the first bytes that differ, the end counting as zero |
| Runtime.Lcompare | runtime/runtime.c:628-686 | On the words of a heap, the boxed comparison of the values they stand for |
| WordRules.WordsOrder | runtime/runtime.c:635-686 | Unboxed words order as their numbers and before all others, heap pointers before foreign words, and those as addresses |
| WordRules.ObjectsOrder | runtime/runtime.c:643-675 | Objects order by the tags in their headers, then by code words or signed tags, then by their lengths |
| WordRules.FieldsOrder | runtime/runtime.c:677-681 | Then the first fields that are not found equal decide, from the lowest offset on |
| WordRules.StringsOrder | runtime/runtime.c:652-652 | Strings order by the first bytes that differ, up to a zero byte |
| Runtime.HashString | runtime/runtime.c:576-585 | Hashes the bytes up to the first zero |
| Runtime.InnerHash | runtime/runtime.c:564-609 | On the words of a heap, the hash of the value cut off at the remaining depth |
| Runtime.Lhash | runtime/runtime.c:617-617 | The boxed 22-bit hash of the value cut off at depth 3 |
| WordRules.AppendExact | runtime/runtime.c:561-562 | Appending adds modulo 2 to the 64 and exchanges the halves of the sum |
| WordRules.HashIsFolded | runtime/runtime.c:564-609 | What inner_hash appends, in order: the number of an unboxed word, a foreign word, and for an object its tag, its length, its code word or tag, and its bytes or what its fields give, down to the fourth level |
| WordRules.HashOfWord | runtime/runtime.c:617-617 | Lhash boxes the low 22 bits of that, starting from zero |
| Hashing.PairHash | runtime/runtime.c:617-617 | The array of 1 and 2 hashes to 4, a boxed word of 9 |
| Runtime.CollectionKeepsResults | runtime/runtime.c:564-686 | Comparing and hashing roots gives the same results before and after a collection |
| Hashing.SameIsEqual | runtime/runtime.c:564-686 | Structurally equal values without embedded zero bytes are equal trees |
| Hashing.EqualAtEveryDepth | runtime/runtime.c:564-565 | Words with the same complete value have the same value at every cut-off |
| Hashing.EqualWordsHashEqually | runtime/runtime.c:617-686 | Words of a heap that Lcompare calls equal, with equal top bits where it compares code words, tags and foreign words, are hashed alike by Lhash, the different field indexing and the depth cut-off notwithstanding |
| Hashing.BoundedWordsHashEqually | runtime/runtime.c:617-686 | The same without a condition on pairs, for values whose own words meet the bound |
| Hashing.EqualClosuresHashApart | runtime/runtime.c:617-686 | Two closures that Lcompare calls equal and Lhash tells apart |
| Bytecode.Find | comp/src/lama_rv.cpp:36-36 | The lookup finds an instruction at the offset, and fails only if there is none |
| Operators.BinopExact | comp/src/emit.cpp:241-257 | The compiled operator equals the runtime's if and only if, for && and !!, the operands' bits allow it, for == they are equal or differ above the lowest bit, and for - of pointers they are equal |
| Operators.DivisionExact | runtime/runtime.c:190-205 | Quotient and remainder of boxed numbers, by the runtime and as compiled, are the numbers that make up the dividend with a remainder smaller than the divisor and of the dividend's sign |
| Operators.DivisionUnique | runtime/runtime.c:190-205 | There are no others |
| Operators.InfixExact | runtime/runtime.c:102-205 | The results of the other functions on boxed numbers, and the failure on division by zero |
| Operators.InfixOnPointers | runtime/runtime.c:120-179 | On pointers, equality and the distance of two are defined, and no other operator |
| Operators.TruthValuesAgree | runtime/runtime.c:103-117 | On truth values && and !! always agree |
| Operators.BothDiffers | comp/include/opcode.h:84-97 | 1 && 2 is true for the runtime and false when compiled |
| Operators.EitherDiffers | comp/include/opcode.h:84-97 | 1 !! 2 is 1 for the runtime and 3 when compiled |
| Operators.EqualDiffers | runtime/runtime.c:120-120 | Two words that differ for the runtime and are equal when compiled |
| Operators.ComparisonExact | comp/include/code_buffer.h:71-114 | The two-instruction sequences for ==, !=, <= and >= compute those relations |
| Operators.ConstExact | comp/include/instructions.h:44-50 | A constant keeps its value exactly in the 31-bit range |
| Operators.TagWordExact | comp/src/emit.cpp:33-36 | The tag word of compiled code keeps the hash exactly below 2 to the 30, as with up to five characters, and tells two tags apart exactly by the lowest 31 bits of their hashes |
| Operators.ErrorTagsCollide | comp/src/emit.cpp:33-36 | TypeError and NameError have different hashes and the same tag word in compiled code |
| Compiler.Compiler.AddJumpTarget | comp/include/compiler.h:34-43 | Records a height for an address, or fails exactly when another one is recorded |
| Compiler.Compiler.InstBegin | comp/include/compiler.h:45-55 | Fails exactly on a conflicting height; only the first visit of an address defines its label |
| Compiler.Compiler.ShouldEmit | comp/include/compiler.h:57-64 | True exactly for addresses not compiled; fails on a conflicting height |
| Compiler.Compiler.CompileCall | comp/include/compiler.h:72-138 | Emits the specified call sequence; fails exactly without a frame, on too few operands or a conflicting height |
| Compiler.Compiler.EmitConstructor | comp/src/emit.cpp:28-36 | String and SExpression push their operand and call the runtime, the latter with the count that the unparenthesised BOX yields |
| Compiler.Compiler.EmitTagTest | comp/src/emit.cpp:135-150 | Tag and Fail push their operands and call the runtime |
| Compiler.Compiler.EmitBinop | comp/src/emit.cpp:241-257 | Unboxes both operands in place, computes into the lower one and boxes it |
| Compiler.Compiler.EmitSwap | comp/src/emit.cpp:65-73 | Emits the exchange of the two topmost positions |
| Compiler.Compiler.EmitConst | comp/src/emit.cpp:13-26 | Emits the load of a constant into the next position |
| Compiler.Compiler.EmitBegin | comp/src/emit.cpp:87-112 | Sets the current frame and emits label and prologue |
| Compiler.Compiler.EmitEnd | comp/src/emit.cpp:114-129 | Emits the epilogue of the current frame |
| Compiler.Compiler.EmitLoad | comp/src/emit.cpp:152-187 | Emits the load of a variable, or fails exactly when its index is out of bounds |
| Compiler.Compiler.EmitStore | comp/src/emit.cpp:193-219 | Emits the store of the topmost operand |
| Compiler.Compiler.EmitCondJump | comp/src/emit.cpp:54-59 | Emits the test and branch, and records the height after the pop for the target |
| Compiler.Compiler.EmitCode | comp/include/instructions.h:9-40 | Every instruction: lines, height, frame and recorded target as specified; fails exactly where the specification aborts |
| Delegation.AsksInOrder | comp/src/emit.cpp:28-235 | Every instruction that is compiled to a call of the runtime transfers to the function it means, and the argument registers hold its operands and constants in the order of that function's parameters |
| Compiler.Compiler.EmitChain | comp/src/lama_rv.cpp:36-51 | Compiles from an instruction to the next terminator |
| Compiler.Compiler.Compile | comp/src/lama_rv.cpp:12-54 | Ends on every program; without a failed check the output is the listing of a completed run of the driver, otherwise the last round of the schedule fails; no check fails where all that is reached is ready, at one height each |
| Worklist.VisitKeeps | comp/src/lama_rv.cpp:37-50 | Visiting one instruction keeps the invariant of the driver in the middle of a chain |
| Worklist.ChainKeeps | comp/src/lama_rv.cpp:36-51 | A chain keeps the invariant and compiles the address it starts from |
| Worklist.ProcessKeeps | comp/src/lama_rv.cpp:25-52 | Every round keeps the invariant, and compiles a new address or shortens the list |
| Worklist.CompletedIsClosed | comp/src/lama_rv.cpp:22-52 | When the list is empty, done is closed under fall-through, jump and call successors at their heights, public functions at height zero |
| Schedules.HeightsAreUnique | comp/src/lama_rv.cpp:22-52 | Whatever the order in which addresses and public symbols are taken, compilations without a failed check compile the same instructions at the same heights |
| Labelling.CompiledIsReached | comp/src/lama_rv.cpp:22-52 | Where all that is reached through steps of the height machine is ready, the instructions compiled and their heights are exactly those reached |
| Labelling.NeverStops | comp/src/lama_rv.cpp:22-52 | If moreover every instruction is reached at one height, no check fails in any order |
| Labelling.DriverExact | comp/src/lama_rv.cpp:22-52 | The driver finishes in some order, and in every order, if and only if every instruction is reached at one height |
| Labelling.RunReaches | comp/src/lama_rv.cpp:36-51 | Every run of the height machine stays on what is reached |
| Linking.LabelDefinedOnce | comp/include/compiler.h:45-55 | No bytecode label is defined twice, even when fall-through re-emits compiled code |
| Linking.LabelDefined | comp/include/compiler.h:45-55 | Every compiled instruction has a line with its label, at a chunk of the recorded height |
| Linking.LinksExactly | comp/include/compiler.h:34-64 | Of the addresses that emitted code transfers to, exactly those of instructions have their label defined |
| Linking.LowerRefers | comp/src/emit.cpp:49-59 | Emitted code defines no further bytecode label and transfers to no address but the recorded one |
| Linking.StepDeterministic | comp/include/code_buffer.h:167-197 | On the listing a machine state has one successor at most |
| Heights.LowerExact | comp/src/emit.cpp:13-257 | Compilation of an instruction passes its checks exactly when it is implemented and operands, frame and index are there; the height moves by what the instruction takes and leaves, and by one more for the Begin of main |
| Heights.StepSound | comp/src/lama_rv.cpp:36-51 | A step keeps every operand stack at the recorded height, less one exactly in activations of main |
| Heights.HeightsSound | comp/src/lama_rv.cpp:22-52 | Every run from a public function, calls included, stays on compiled addresses with the operands at the recorded heights, less one exactly in main; operands are there for every instruction but in main when all that are counted are taken |
| Heights.NextFollowsHeights | comp/src/lama_rv.cpp:36-51 | Every step of the stack machine moves the heights by one or two steps of the height machine |
| Heights.RunHeightsSound | comp/src/lama_rv.cpp:22-52 | So every configuration of every run of the stack machine itself has the recorded heights, and operands are missing only in main as described |
| Blocks.PushList | comp/include/compiler.h:83-91 | A run of pushes stores the registers downwards in order and touches nothing else |
| Blocks.PopList | comp/include/compiler.h:125-129 | A run of pops in reverse order loads them back |
| Blocks.PassList | comp/include/compiler.h:94-96 | The topmost operands end up in order in the argument registers, after the one of a leading constant if there is one |
| Blocks.BeforeBlock | comp/include/compiler.h:76-105 | Before the transfer ra, temporaries and arguments are on the stack, up to eight arguments passed, a leading constant first, and nothing above the stack pointer written |
| Blocks.AfterBlock | comp/include/compiler.h:117-137 | After the return they are all back, a7 too unless the callee wrote the word at its entry stack pointer; the result is in its slot exactly in positions up to 10 |
| Blocks.CallDiscipline | comp/include/compiler.h:72-138 | For up to eight arguments, with or without a leading constant, and any well-behaved callee: 16-byte alignment on entry, arguments in order, the caller's registers, memory and deeper operands kept, the result on top |
| Blocks.BeginBlock | comp/src/emit.cpp:103-111 | The prologue saves fp and s1-s11 below the locals and sets up the frame |
| Blocks.EndBlock | comp/src/emit.cpp:117-123 | The epilogue puts the result in a0 and gives back stack pointer and callee-saved registers |
| Frames.EpilogueExact | comp/src/emit.cpp:114-129 | An epilogue restores the caller's registers if and only if it was compiled for as many locals as its prologue |
| Frames.FrameLeaks | comp/src/lama_rv.cpp:25-33 | A branching program and an order of compilation, the newest entry first, for which an epilogue is compiled for another function's frame |
| Frames.LeakReturns | comp/src/lama_rv.cpp:25-33 | Its compiled code runs and returns to any caller with the frame pointer overwritten by what s1 held |
| Steps.ConstBlock | comp/src/emit.cpp:13-26 | Executing it sets the next slot to the boxed constant |
| Steps.SwapBlock | comp/src/emit.cpp:65-73 | Executing it exchanges the two topmost operands and nothing else |
| Steps.BinopBlock | comp/src/emit.cpp:241-257 | Executing it replaces two operands by the operator's value, all deeper operands kept |
| Steps.StoreArgumentBackwards | comp/src/emit.cpp:207-210 | Executing it stores nothing: it overwrites the operand with the argument |
| MainFunction.MainForm | comp/include/compiler.h:167-171 | The lines of the prologue of main, up to the call of __init and after it |
| MainFunction.InitReady | comp/src/emit.cpp:99-102 | __init is entered with the globals loaded, the registers saved, and the stack aligned exactly for an even number of locals |
| MainFunction.MainBegun | comp/src/emit.cpp:99-112 | After it the frame of main stands, with the result of __init in place of the caller's s1 |
| MainFunction.MainEnds | comp/src/emit.cpp:114-129 | At its end main returns the number of the topmost operand and restores what was saved |
| Deviations.ManyBlock | comp/include/compiler.h:94-105 | Of more than eight arguments the last are in the registers and the first on the stack, in order, with the stack aligned |
| Deviations.StackArgumentBlock | comp/src/emit.cpp:171-181 | A load of such an argument reads index - 8 bytes above the frame |
| Deviations.StoreStackArgument | comp/src/emit.cpp:207-214 | A store to it writes index - 8 words above the frame |
| Deviations.StoreStackBlock | comp/src/emit.cpp:38-43 | Writes the value where the pointer points to and leaves the pointer on top |
| Deviations.SpilledMove | comp/include/code_buffer.h:199-230 | A move from a spilled position reads its word, one to it writes nothing |
| Deviations.SpilledOperator | comp/include/code_buffer.h:231-244 | An operator on spilled positions computes into the first one's word |
| Deviations.SpilledConstant | comp/src/emit.cpp:13-26 | A constant for a spilled position goes to a word below the frame pointer |
| Deviations.SpilledImmediate | comp/include/code_buffer.h:246-250 | An immediate instruction on a spilled position stores nothing |
| Relation.CallersKept | comp/include/compiler.h:72-138 | Suspended callers depend only on memory above the active frame and its saved registers |
| Relation.JumpTarget | comp/src/emit.cpp:49-59 | The label of a jump target starts a covered chunk compiled at the height of the jump and for equally many locals |
| Simulation.LocalSimulated | comp/src/emit.cpp:13-257 | Constants, stack operations, operators and loads are followed step by step |
| Simulation.StoreSimulated | comp/src/emit.cpp:193-206 | Stores to globals and locals are followed, callers and other variables untouched |
| Simulation.JumpSimulated | comp/src/emit.cpp:49-52 | Jumps are followed |
| Simulation.CondJumpSimulated | comp/src/emit.cpp:54-59 | Conditional jumps are followed on both branches |
| Calls.EnterSimulated | comp/include/compiler.h:76-116 | A call is followed up to the callee's first instruction, with the caller suspended on the stack |
| Calls.LeaveSimulated | comp/include/compiler.h:117-137 | A return is followed up to the instruction after the call, with the caller's whole frame restored |
| Correctness.StepSimulated | comp/src/emit.cpp:13-257 | Every step of the stack machine in covered code is matched by a run of the compiled code |
| Correctness.RunSimulated | comp/src/emit.cpp:13-257 | So is every run, from any related state |
| Correctness.StartSimulated | comp/src/emit.cpp:87-112 | A covered function called from outside reaches its first instruction in a related state |
| Correctness.FunctionCorrect | comp/src/emit.cpp:13-257 | A function that the stack machine runs to its end, recursion of any depth included, returns the same result and globals when compiled, and gives its caller back stack pointer, callee-saved registers and memory; conditions are on the chunks it can reach, none on the rest of the program |
| Example.TwiceReturns | comp/src/lama_rv.cpp:12-54 | A program with a public main, a call and a jump, and a caller, that meet every condition of the correctness theorem, with the result it gives |
| Example.MainUnderflows | comp/src/emit.cpp:99-102 | A program that the driver compiles without a failed check and that is stuck at the first instruction of main |
| Example.MatchesCompiles | comp/src/lama_rv.cpp:36-51 | A program with a match failure, after which compilation does not go on: the driver finishes in every order, with the next instruction at the height of the jump to it |
| Example.SubtractsInOrder | runtime/runtime.c:171-179 | A run in which the operand on top is subtracted from the one below and the result does not jump |

## Left out

- Operating system: mmap and munmap as such, signals, files, printing, regular expressions, input, debug-only code and full invariant checks.
- Collector.Heap.Collect: requires that no live slot sits in the first stack word or the static end slot, which are marked or rewritten but not both, and that the word at the stack bottom is no dead pointer; the source leaves this to its callers.
- Collector.Heap.Collect: requires that non-heap words kept by the program do not point into the fresh chunk (its end included), since the source cannot tell such a word from a pointer after the copy.
- Collector.Heap.Alloc: addresses do not wrap around: a chunk lies wholly below 2 to the 64.
- Agreement of compiled code and root set: pointers held only in registers, and globals outside the scanned section, are not in the root set that the collector sees; the root set is taken as given.
- Other runtime functions: Lclone but for its copying of objects (Runs.CopyKeeps), Li__Infix_4343, string construction and mutation, LflatCompare, value printing and the variadic wrappers around the constructors.
- Runtime.StrCmp: returns the difference of the first unequal bytes, where C fixes only the sign; bytes are unsigned.
- Runtime.Lcompare: requires terminated strings and values of finite depth, as the source's recursion does.
- Simulation of spilled stack positions: heights stay at 15 or below; what the code of higher ones does is stated in Deviations, line by line and not for whole instructions.
- Simulation of calls with more than seven arguments, results in positions 11 to 14 and argument stores, where the code does not do what its instruction means.
- Simulation of an activation of main, whose prologue calls code that is not part of this model; MainFunction has its prologue and epilogue but for the store of the stack bottom, and the other functions of a program with a main are simulated.
- Frames with more than 244 locals and variables of index 256 and above, whose immediates do not fit the 12 bits of the instruction set: such a listing does not assemble.
- Correctness.FunctionCorrect: requires that the stack fits above the globals; overflow of the machine stack is not detected by the source.
- Correctness.FunctionCorrect: requires operands on which compiled and runtime operators agree; Operators.BinopExact says which those are.
- StoreStack, Elem, StoreArray, strings, s-expressions and built-in functions are compiled in the model but not simulated; with up to eight arguments in all, leading constant included, their calls obey Blocks.CallDiscipline and pass what Delegation.AsksInOrder says.
- Return, Closure, CallClosure, Array, LoadArray, patterns and captured variables: not implemented by the compiler, which stops on them.
- Negative operands of instructions read from a bytecode file, which the source turns into huge unsigned numbers, and the reading of the file itself.
- Labels of public functions: only bytecode labels are shown to be unique.
