# Verified models of the coursework algorithms

Dafny models of the algorithmic cores of this repository, with proofs that they do what they are for. Each core
has a specification on values, the theorems about it, and a version in the program's own imperative form proved
against the specification. `dafny verify dfyconfig.toml` checks the whole project.

| part | files | what is proved |
|---|---|---|
| SB code generator (`geracod.c`) | `word32`, `ia32`, `iteration`, `sblang`, `sbcode`, `sbcorrect`, `sbgenerator` | compiler correctness down to the bytes of the IA-32 (Intel 64 and IA-32 Architectures Software Developer's Manual, Volume 2, sections 2.1.3 to 2.1.5), exact back-patching |
| Parallel TSP solver (`T3-TSP/main.c`) | `tsptours`, `tspsearch`, `tspbounds`, `tsppartition`, `tspestimate`, `tsplimits`, `tspprogram` | optimality under any interleaving, termination, stack bound, exact partition of the work; for how many threads each holds |
| Monga-to-LLVM generator (`llvm.c`) | `monga`, `llvmcode`, `llvmmachine`, `llvmcorrect`, `llvmgenerator` | the generated jumping code preserves meaning; labels, targets and temporaries are well formed |
| Adaptive-quadrature farm (`aquad3.c`, `aquad3-version2.c`, `aquad2.c`) | `sums`, `quadarea`, `quadexact`, `quadfarm`, `quadterm`, `quadprogram` | the farm refines the sequential recursion, a composite trapezoid sum within the tolerance; quiescence detection is safe; messages between two processes keep their order, as in section 3.5 of the MPI 3.1 standard |
| Bounded buffer (`limitedbuffer.c`) | `counts`, `bufferspec`, `buffertokens`, `bufferfifo`, `bufferlimits`, `buffermarks`, `bufferprogram` | the split binary semaphore invariant for any number of threads, FIFO and freedom from deadlock for one producer and one consumer, and that one producer never overwrites what any consumer has still to read |
| Interpolation and PLU (`poly.c`, `interp.c`) | `interpolation`, `plu`, `plusolve`, `pluprogram`, `vandermonde` | Newton's, Lagrange's and the Vandermonde polynomial are one; elimination is exact, and gets through exactly on regular matrices |
| Page replacement (`trab2`) | `paging`, `pagingsim`, `pagingprogram` | the LRU stack property, second chance and NRU over all reachable states |
| Two binary codecs (`compacta.c`, `ImageLoader.cpp`) | `compacta`, `compactaprogram`, `bitmap`, `bitmapprogram` | round trips, lengths, rounding error |

## Where the code falls short of what it is for

Each of these is a theorem that says exactly when the code does what it is for, or exactly what it does instead.

- The operand test of the SB generator lets negative indices through, and the displacement byte keeps them modulo 64:
  exactly where each of them writes, among others over the caller's frame pointer and the return address, is
  `SbCorrect.NegativeIndexLands` with `SbCorrect.LandsBy`. Proper indices are all that correctness needs
  (`SbCode.AcceptedOperands`).
- `Update_best_tour` writes the best tour in two steps while `Feasible` and the first `Best_tour` test read its cost
  without the mutex. Every run ends optimal iff there is one thread (`TspLimits.AlwaysOptimalIffOneThread`); with more,
  optimality is proved for the runs in which nobody reads in between (`TspSearch.SearchIsOptimal`).
- The queue-size estimate of the TSP program refuses exactly the numbers of threads between `MostThreads(n)` and
  (n-1)! that it could serve (`TspEstimate.GrantedIff`); four cities have some, eight have none
  (`TspEstimate.SomeAreRefused`).
- The circular queue of the TSP program never clears its `full` flag; what becomes of a queue that was full is in
  the contracts of `TspPartition.Queue.Enqueue` and `Dequeue`.
- The farm's master never stops when `l == r`, and stops in every other case (`QuadFarm.StuckMeansDone`).
- The buffer is a queue iff there is one producer and one consumer, at every capacity
  (`BufferLimits.QueueIffOneOfEach`): two producers can lose a deposited value, and two consumers can read what was
  not deposited.
- The time of the last flag reset is never recorded, so from `maxPages * 1024` accesses on NRU replaces at random; its
  victim is always of the lowest class iff there is one frame or the trace is shorter than that
  (`PagingSim.AlwaysLowestIff`). Reference bits are not set by accesses (`PagingSim.BitsAreNotSetAgain`).
- The packed file keeps its counts exactly up to 127 structs and 127 fields (`Compacta.CountsSurviveIff`).
- Bitmap components below -1/510 wrap around instead of being cut to zero (`Bitmap.QuantizeIsClose`).

## Model

| member | source | states |
|---|---|---|
| SbLang.ParseFlatten | INF1018-Software-Basico/Trabalho 2 (Gerador de Código Dinâmico)/geracod.c:237-304 | Reading a statement list into its longest block and writing it back gives the list |
| SbLang.FlattenParse | INF1018-Software-Basico/Trabalho 2 (Gerador de Código Dinâmico)/geracod.c:252-273 | A block followed by an unmatched `end` or by nothing is read back as itself: the tree is determined by the list |
| SbLang.BalancedIffTree | INF1018-Software-Basico/Trabalho 2 (Gerador de Código Dinâmico)/geracod.c:263-304 | The lists on which every `end` finds an open while and none is left open are exactly the flattened trees, each of exactly one tree |
| SbLang.ProperFlatten | INF1018-Software-Basico/Trabalho 2 (Gerador de Código Dinâmico)/geracod.c:119-126 | The operands of a list are proper exactly when those of its tree are |
| SbCode.CloseLoop | INF1018-Software-Basico/Trabalho 2 (Gerador de Código Dinâmico)/geracod.c:211-220 | Patching the je of an open while and appending the jmp turns placeholder and body into the closed loop, wherever the while stands |
| SbCode.EmitBlock | INF1018-Software-Basico/Trabalho 2 (Gerador de Código Dinâmico)/geracod.c:237-299 | Emitting a whole block appends its code and leaves the stack of open whiles and all earlier bytes as they were |
| SbCode.EmitTracks | INF1018-Software-Basico/Trabalho 2 (Gerador de Código Dinâmico)/geracod.c:243-273 | A statement is accepted iff its own tests pass and an `end` has a while to close; it changes the open whiles by one and emits at most 16 bytes |
| SbCode.EmitAllTracks | INF1018-Software-Basico/Trabalho 2 (Gerador de Código Dinâmico)/geracod.c:237-304 | A pass succeeds iff all statements are accepted and no `end` comes too early; n statements emit at most 16n bytes |
| SbCode.GeracodAccepts | INF1018-Software-Basico/Trabalho 2 (Gerador de Código Dinâmico)/geracod.c:263-304 | The generator succeeds iff the list is balanced and every statement passes its tests |
| SbCode.GeracodIsCode | INF1018-Software-Basico/Trabalho 2 (Gerador de Código Dinâmico)/geracod.c:223-317 | Back-patching is exact: the bytes are prologue, code of the program tree, epilogue, no placeholder left, at most 6 + 16n + 7 of them |
| SbCode.OpenWhilesHalf | INF1018-Software-Basico/Trabalho 2 (Gerador de Código Dinâmico)/geracod.c:231-261 | A balanced program never has more whiles open than half its statements |
| SbCode.AcceptedOperands | INF1018-Software-Basico/Trabalho 2 (Gerador de Código Dinâmico)/geracod.c:25-42 | Which operands the bound test lets through: the proper ones and, beyond them, exactly variables with a negative index |
| SbCode.RefusedWith | INF1018-Software-Basico/Trabalho 2 (Gerador de Código Dinâmico)/geracod.c:25-42 | Which error each refused statement gives: a parameter from p5, a local from v10, another kind, a constant as target or condition, an operator other than +, - and *, in the order of the tests |
| SbCode.ProperAccepted | INF1018-Software-Basico/Trabalho 2 (Gerador de Código Dinâmico)/geracod.c:119-126 | Proper programs pass every test |
| Ia32.DecodePrefix | INF1018-Software-Basico/Trabalho 2 (Gerador de Código Dinâmico)/geracod.c:45-220 | What follows an instruction does not change how its bytes decode |
| Ia32.DecodeLength | INF1018-Software-Basico/Trabalho 2 (Gerador de Código Dinâmico)/geracod.c:45-220 | An instruction takes exactly the bytes it needs to decode, so the je and the jmp land where the lengths say, and an 8-bit immediate is its last byte |
| Ia32.StepAt | INF1018-Software-Basico/Trabalho 2 (Gerador de Código Dinâmico)/geracod.c:45-220 | A machine step at an emitted instruction executes what its bytes decode to |
| Word32.BytesRoundTrip | INF1018-Software-Basico/Trabalho 2 (Gerador de Código Dinâmico)/geracod.c:66-66 | A word stored by memcpy through the union is fetched back unchanged |
| SbCorrect.Load | INF1018-Software-Basico/Trabalho 2 (Gerador de Código Dinâmico)/geracod.c:45-78 | The load emitted for any proper operand puts its value into the register asked for and leaves the frame and the other operand register alone |
| SbCorrect.Operate | INF1018-Software-Basico/Trabalho 2 (Gerador de Código Dinâmico)/geracod.c:139-169 | The emitted operation leaves the source-level result, modulo 2^32, in %edx, for either order of the operands |
| SbCorrect.Save | INF1018-Software-Basico/Trabalho 2 (Gerador de Código Dinâmico)/geracod.c:82-98 | The emitted store updates the slot of exactly that variable |
| SbCorrect.Assignment | INF1018-Software-Basico/Trabalho 2 (Gerador de Código Dinâmico)/geracod.c:104-178 | The four instructions of an assignment take the frame from one source state to the next |
| SbCorrect.Compare | INF1018-Software-Basico/Trabalho 2 (Gerador de Código Dinâmico)/geracod.c:182-209 | Cmpl and je together go past the displacement iff the variable is zero |
| SbCorrect.LoopParts | INF1018-Software-Basico/Trabalho 2 (Gerador de Código Dinâmico)/geracod.c:182-220 | In the code of a loop the je decodes to the byte after the closing jmp, and that jmp decodes to the cmpl |
| SbCorrect.Simulate | INF1018-Software-Basico/Trabalho 2 (Gerador de Código Dinâmico)/geracod.c:237-299 | The code of a block reaches its end in the state the block computes, or keeps running for as long as asked |
| SbCorrect.SimulateLoop | INF1018-Software-Basico/Trabalho 2 (Gerador de Código Dinâmico)/geracod.c:182-220 | The same for a loop, by induction on the number of iterations |
| SbCorrect.Prologue | INF1018-Software-Basico/Trabalho 2 (Gerador de Código Dinâmico)/geracod.c:225-236 | Entry sets up a frame that holds the parameters and arbitrary locals |
| SbCorrect.Epilogue | INF1018-Software-Basico/Trabalho 2 (Gerador de Código Dinâmico)/geracod.c:226-313 | Exit returns v0 in %eax, restores the caller's %ebp and %esp and jumps to the return address |
| SbCorrect.CallWithFuel | INF1018-Software-Basico/Trabalho 2 (Gerador de Código Dinâmico)/geracod.c:223-317 | What any bound on loop entries says about the whole emitted function |
| SbCorrect.CompilerCorrect | INF1018-Software-Basico/Trabalho 2 (Gerador de Código Dinâmico)/geracod.c:45-317 | Compiler correctness: for every accepted program with proper operands the emitted bytes return iff the program halts, never fault, and then every v and p and %eax hold the program's values and the caller's registers and stack are intact |
| SbCorrect.NegativeIndexLands | INF1018-Software-Basico/Trabalho 2 (Gerador de Código Dinâmico)/geracod.c:25-98 | The bound test is too weak: for every negative i and every n the accepted program `vi = $n + $0` stores n at the word that i modulo 64 stands for, or faults if there is none, and then takes its result, the frame pointer and the return address from the memory so changed |
| SbCorrect.LandsBy | INF1018-Software-Basico/Trabalho 2 (Gerador de Código Dinâmico)/geracod.c:55-92 | Which word that is: the local i modulo 64, the caller's frame pointer for remainder 63, the return address for 62, a parameter for 57 to 61, and otherwise memory outside the frame |
| SbGenerator.Generator.constructor | INF1018-Software-Basico/Trabalho 2 (Gerador de Código Dinâmico)/geracod.c:224-236 | An empty buffer of the given capacity, no while open |
| SbGenerator.Generator.Copy | INF1018-Software-Basico/Trabalho 2 (Gerador de Código Dinâmico)/geracod.c:248-248 | Memcpy into the buffer changes exactly the bytes copied |
| SbGenerator.Generator.Append | INF1018-Software-Basico/Trabalho 2 (Gerador de Código Dinâmico)/geracod.c:248-249 | Bytes are added at the moving index and everything before it is kept |
| SbGenerator.Generator.WhileFunc | INF1018-Software-Basico/Trabalho 2 (Gerador de Código Dinâmico)/geracod.c:252-262 | A while records its address on the stack and emits its bytes with a placeholder |
| SbGenerator.Generator.EndFunc | INF1018-Software-Basico/Trabalho 2 (Gerador de Código Dinâmico)/geracod.c:211-271 | An `end` patches the bytes of the last open while in place, emits the jmp and pops the stack, as the pass says |
| SbGenerator.Generator.Statement | INF1018-Software-Basico/Trabalho 2 (Gerador de Código Dinâmico)/geracod.c:243-273 | One statement does in place what the pass does on values, or exits with the same error |
| SbGenerator.Generator.Run | INF1018-Software-Basico/Trabalho 2 (Gerador de Código Dinâmico)/geracod.c:223-317 | The loop over the statements yields in the buffer exactly the bytes of the pass, or its error; 6 + 16n + 7 bytes and half as many slots as statements are enough |
| TspTours.PathCostMonotone | INF2591-Concurrent-And-Parallel-Programming/T3-TSP/main.c:739-744 | Costs being nonnegative, extending a path never makes it cheaper |
| TspTours.PrefixBound | INF2591-Concurrent-And-Parallel-Programming/T3-TSP/main.c:779-787 | The cost of a prefix bounds the cost of every cycle through it from below |
| TspTours.FullVisitsAll | INF2591-Concurrent-And-Parallel-Programming/T3-TSP/main.c:419-419 | A path of n distinct cities visits all of them |
| TspTours.TourStruct.constructor | INF2591-Concurrent-And-Parallel-Programming/T3-TSP/main.c:315-325 | A tour starts at the home town with no cost |
| TspTours.TourStruct.AddCity | INF2591-Concurrent-And-Parallel-Programming/T3-TSP/main.c:739-744 | The city goes at the end and its edge into the cost |
| TspTours.TourStruct.RemoveLastCity | INF2591-Concurrent-And-Parallel-Programming/T3-TSP/main.c:755-763 | Undoes the addition: cities, count and cost are what they were |
| TspTours.TourStruct.Visited | INF2591-Concurrent-And-Parallel-Programming/T3-TSP/main.c:798-804 | The linear search answers whether the city is on the tour |
| TspSearch.StepKeeps | INF2591-Concurrent-And-Parallel-Programming/T3-TSP/main.c:414-435 | Every pop, test, push, lock and update keeps the invariant: no path of the share cheaper than the best tour is lost, and the best tour is a real cycle of its cost |
| TspSearch.TestsCompareCosts | INF2591-Concurrent-And-Parallel-Programming/T3-TSP/main.c:680-691 | A neighbour is gone to iff it is unvisited and the path to it is cheaper than the best tour, and a full path replaces the best tour iff its cycle is cheaper; equal costs change nothing |
| TspSearch.SplitKeeps | INF2591-Concurrent-And-Parallel-Programming/T3-TSP/main.c:1340-1366 | Splitting a stack for an idle thread keeps the invariant |
| TspSearch.RunKeepsInv | INF2591-Concurrent-And-Parallel-Programming/T3-TSP/main.c:403-443 | The invariant holds after every run of any number of threads |
| TspSearch.SearchIsOptimal | INF2591-Concurrent-And-Parallel-Programming/T3-TSP/main.c:403-443 | Whatever the interleaving and the splits, when no work is left the best tour is a cheapest cycle of the share, if one costs less than INFINITY |
| TspSearch.OneThreadIsAtomic | INF2591-Concurrent-And-Parallel-Programming/T3-TSP/main.c:680-691 | With one thread every run is one in which nobody reads a half-written best tour |
| TspBounds.StepDecreases | INF2591-Concurrent-And-Parallel-Programming/T3-TSP/main.c:414-435 | A weight on the stacked prefixes strictly decreases with every step |
| TspBounds.SplitDecreases | INF2591-Concurrent-And-Parallel-Programming/T3-TSP/main.c:1340-1366 | And with every split |
| TspBounds.RunIsFinite | INF2591-Concurrent-And-Parallel-Programming/T3-TSP/main.c:414-435 | No run is longer than the weight of its start |
| TspBounds.NeverStuck | INF2591-Concurrent-And-Parallel-Programming/T3-TSP/main.c:414-435 | While work is left some step is possible |
| TspBounds.StacksNeverOverflow | INF2591-Concurrent-And-Parallel-Programming/T3-TSP/main.c:919-930 | Started with at most n prefixes a thread, no stack of any run ever holds more than n + (n - 1)(n - 2)/2 <= n * n tours: the overflow exit is unreachable |
| TspBounds.HeightFitsAllocation | INF2591-Concurrent-And-Parallel-Programming/T3-TSP/main.c:873-884 | That height in closed form, and that n * n slots hold it |
| TspLimits.HalfWrittenTourLosesOptimum | INF2591-Concurrent-And-Parallel-Programming/T3-TSP/main.c:680-691 | Pruning reads the best cost without the mutex, between the copy and the edge home: a concrete run of two threads ends with a tour of cost 102 where 15 was to be had |
| TspLimits.SmallStart | INF2591-Concurrent-And-Parallel-Programming/T3-TSP/main.c:488-592 | The state that run starts from is the one the program hands to two threads on those cities |
| TspLimits.PaddedRuns | INF2591-Concurrent-And-Parallel-Programming/T3-TSP/main.c:403-443 | Threads without work change nothing about what the others can do |
| TspLimits.AlwaysOptimalIffOneThread | INF2591-Concurrent-And-Parallel-Programming/T3-TSP/main.c:680-691 | All runs from every start of k threads end with an optimal tour iff k is one |
| TspPartition.ExpandKeeps | INF2591-Concurrent-And-Parallel-Programming/T3-TSP/main.c:574-586 | Replacing the head of the queue by its children keeps a prefix-free cover of all tours on two levels, and the number of leaves below |
| TspPartition.HeadIsPartial | INF2591-Concurrent-And-Parallel-Programming/T3-TSP/main.c:573-574 | While fewer prefixes than (n-1)! are queued the dequeued one is not a complete tour |
| TspPartition.Queue.constructor | INF2591-Concurrent-And-Parallel-Programming/T3-TSP/main.c:1016-1023 | An empty circular queue |
| TspPartition.Queue.Enqueue | INF2591-Concurrent-And-Parallel-Programming/T3-TSP/main.c:1051-1068 | Adds at the tail; exits iff the flag is set, which for a queue that was never full means that it is full |
| TspPartition.Queue.Dequeue | INF2591-Concurrent-And-Parallel-Programming/T3-TSP/main.c:1033-1043 | Removes the head, or exits iff the queue is empty; a queue that was full gives its elements up in order but keeps the flag, and instead of becoming empty holds all of them again |
| TspPartition.ComputeFact | INF2591-Concurrent-And-Parallel-Programming/T3-TSP/main.c:1155-1162 | The loop computes the factorial |
| TspEstimate.GetUpperBdQueueSz | INF2591-Concurrent-And-Parallel-Programming/T3-TSP/main.c:1132-1147 | The size is the first product (n-1) * n * (n+1) * ... with room for the threads, and is zero iff no such product is within (n-1)! |
| TspEstimate.GrantedIff | INF2591-Concurrent-And-Parallel-Programming/T3-TSP/main.c:1136-1145 | The numbers of threads granted are exactly those up to MostThreads(n), the largest such product within (n-1)!, so those refused although there are tours for them are exactly the ones between that and (n-1)! |
| TspEstimate.MostThreads | INF2591-Concurrent-And-Parallel-Programming/T3-TSP/main.c:1136-1145 | That largest product is at least the number of first-level subtrees and at most the number of tours |
| TspEstimate.SomeAreRefused | INF2591-Concurrent-And-Parallel-Programming/T3-TSP/main.c:1136-1145 | On four cities four, five and six threads are refused, although there are six tours; on eight cities nobody is refused who could be served |
| TspPartition.ExpandInto | INF2591-Concurrent-And-Parallel-Programming/T3-TSP/main.c:577-583 | The loop over cities enqueues exactly the children of the dequeued prefix and never finds the queue full |
| TspPartition.BreadthFirst | INF2591-Concurrent-And-Parallel-Programming/T3-TSP/main.c:573-586 | Expanding the head as long as there are fewer prefixes than threads ends, and keeps a prefix-free cover of all tours |
| TspPartition.BuildInitialQueue | INF2591-Concurrent-And-Parallel-Programming/T3-TSP/main.c:560-592 | The breadth-first loop ends, reaches neither exit, and leaves the queue that repeated expansion of the head gives: a prefix-free cover of all tours with at least one prefix for each thread |
| TspPartition.BlocksPartition | INF2591-Concurrent-And-Parallel-Programming/T3-TSP/main.c:533-547 | Every queue position is in the block of exactly one thread |
| TspPartition.BlocksAreEven | INF2591-Concurrent-And-Parallel-Programming/T3-TSP/main.c:533-547 | The blocks differ in length by at most one, the longer ones first |
| TspPartition.StackInQueueOrder | INF2591-Concurrent-And-Parallel-Programming/T3-TSP/main.c:505-512 | A thread starts with the first prefix of its block on top and the others below it in the order of the queue |
| TspPartition.ExactPartition | INF2591-Concurrent-And-Parallel-Programming/T3-TSP/main.c:488-547 | Every complete tour starts out below the stack of exactly one thread |
| TspPartition.InitialIsStart | INF2591-Concurrent-And-Parallel-Programming/T3-TSP/main.c:488-516 | The initial stacks hold valid prefixes, at most n a thread |
| TspPartition.GetGlobalBestTour | INF2591-Concurrent-And-Parallel-Programming/T3-TSP/main.c:450-473 | The reduction picks the tour of least cost, of the lowest rank among equals |
| TspPartition.ProgramIsOptimal | INF2591-Concurrent-And-Parallel-Programming/T3-TSP/main.c:403-592 | The whole program: the cheapest of the processes' results is a cheapest Hamiltonian cycle of the graph, if one costs less than INFINITY |
| TspProgram.TourStack.constructor | INF2591-Concurrent-And-Parallel-Programming/T3-TSP/main.c:873-884 | An empty stack of n * n slots |
| TspProgram.TourStack.Push | INF2591-Concurrent-And-Parallel-Programming/T3-TSP/main.c:893-908 | Pushes, or drops the tour iff the stack is full |
| TspProgram.TourStack.PushCopy | INF2591-Concurrent-And-Parallel-Programming/T3-TSP/main.c:919-930 | Pushes a copy, or exits iff the stack is full |
| TspProgram.TourStack.Pop | INF2591-Concurrent-And-Parallel-Programming/T3-TSP/main.c:940-951 | Takes the top, or exits iff the stack is empty |
| TspProgram.TourStack.Deal | INF2591-Concurrent-And-Parallel-Programming/T3-TSP/main.c:1348-1355 | The loop deals odd positions to the new array and closes the even ones up in place |
| TspProgram.TourStack.SplitStack | INF2591-Concurrent-And-Parallel-Programming/T3-TSP/main.c:1340-1366 | The old stack keeps the even positions, the new one has the odd ones, and has work iff there were two tours |
| TspProgram.SplitMultiset | INF2591-Concurrent-And-Parallel-Programming/T3-TSP/main.c:1348-1358 | A split loses and doubles no tour |
| TspProgram.UpdateBestTour | INF2591-Concurrent-And-Parallel-Programming/T3-TSP/main.c:680-691 | Without rivals the update keeps the invariant of the search |
| TspProgram.ConsiderCity | INF2591-Concurrent-And-Parallel-Programming/T3-TSP/main.c:428-432 | One neighbour is pushed iff feasible; the current tour is restored |
| TspProgram.ExpandTour | INF2591-Concurrent-And-Parallel-Programming/T3-TSP/main.c:427-433 | The loop over neighbours expands a popped tour completely |
| TspProgram.ParTreeSearch | INF2591-Concurrent-And-Parallel-Programming/T3-TSP/main.c:403-443 | A lone thread empties its stack, reaches no exit and returns a cheapest cycle among the paths it was given |
| QuadArea.TreeUnique | INF2591-Concurrent-And-Parallel-Programming/T2-Adaptive-Quadrature/aquad2.c:226-240 | The error test determines one recursion tree for an interval |
| QuadArea.SplitFacts | INF2591-Concurrent-And-Parallel-Programming/T2-Adaptive-Quadrature/aquad2.c:226-240 | The area and the leaves of a split interval are those of its halves |
| QuadArea.LeafFacts | INF2591-Concurrent-And-Parallel-Programming/T2-Adaptive-Quadrature/aquad2.c:234-236 | An interval that meets the tolerance is a leaf with the area of its two halves |
| QuadArea.LeavesTile | INF2591-Concurrent-And-Parallel-Programming/T2-Adaptive-Quadrature/aquad2.c:226-240 | The leaves of the recursion tile the interval |
| QuadExact.AcceptedIff | INF2591-Concurrent-And-Parallel-Programming/T2-Adaptive-Quadrature/aquad2.c:221-240 | An interval is accepted iff the trapezoid over it and the two over its halves differ by at most the tolerance on either side, and then counts with the two |
| QuadExact.AreaIsComposite | INF2591-Concurrent-And-Parallel-Programming/T2-Adaptive-Quadrature/aquad2.c:221-240 | The area is the composite trapezoid sum over the halves of the leaves, all of which meet the tolerance |
| QuadExact.WidthAtDepth | INF2591-Concurrent-And-Parallel-Programming/T2-Adaptive-Quadrature/aquad2.c:226-240 | A leaf reached by k halvings is (b - a) / 2^k wide |
| QuadExact.LinearIsExact | INF2591-Concurrent-And-Parallel-Programming/T2-Adaptive-Quadrature/aquad2.c:221-240 | A linear integrand is integrated exactly, in a single leaf |
| QuadFarm.IdleIsFlagged | INF2591-Concurrent-And-Parallel-Programming/T2-Adaptive-Quadrature/aquad3.c:167-182 | While the idle count is positive some worker is flagged: the "not found" exit is unreachable |
| QuadFarm.Quiescent | INF2591-Concurrent-And-Parallel-Programming/T2-Adaptive-Quadrature/aquad3.c:199-200 | When all workers count as idle and the stack is empty no task and no message is outstanding anywhere |
| QuadFarm.StopKeeps | INF2591-Concurrent-And-Parallel-Programming/T2-Adaptive-Quadrature/aquad3.c:199-210 | The end test passes only on a quiescent farm, and telling the workers moves no work |
| QuadFarm.StepKeeps | INF2591-Concurrent-And-Parallel-Programming/T2-Adaptive-Quadrature/aquad3.c:117-201 | Every step of the master and the workers keeps the invariant, the total of areas and the total of widths, delivered and still to come |
| QuadFarm.RunKeeps | INF2591-Concurrent-And-Parallel-Programming/T2-Adaptive-Quadrature/aquad3.c:117-201 | And so does every run, for any number of workers and any message interleaving |
| QuadFarm.InitialInv | INF2591-Concurrent-And-Parallel-Programming/T2-Adaptive-Quadrature/aquad3.c:235-248 | The start satisfies the invariant and holds exactly the initial intervals |
| QuadFarm.StuckMeansDone | INF2591-Concurrent-And-Parallel-Programming/T2-Adaptive-Quadrature/aquad3.c:199-210 | A run that can go no further has stopped, with every worker finished, iff l differs from r; otherwise the master waits for ever |
| QuadFarm.FullProgressStops | INF2591-Concurrent-And-Parallel-Programming/T2-Adaptive-Quadrature/aquad3.c:199-200 | With all widths delivered the end test passes iff the expected width is not zero |
| QuadFarm.NeverDoneOnEmpty | INF2591-Concurrent-And-Parallel-Programming/T2-Adaptive-Quadrature/aquad3.c:98-200 | With l equal to r the master never stops |
| QuadFarm.FarmRefinesSequential | INF2591-Concurrent-And-Parallel-Programming/T2-Adaptive-Quadrature/aquad3.c:91-355 | When the master stops its total is the sum of the sequential areas of the initial intervals and its progress the whole width, for either version of the worker; QuadExact.FarmIsComposite says what that total is |
| QuadFarm.LeavesTileTheRange | INF2591-Concurrent-And-Parallel-Programming/T2-Adaptive-Quadrature/aquad3.c:260-355 | The leaves the workers integrated are those of the sequential recursion, each once, and they tile [l, r] |
| QuadExact.EqualTasks | INF2591-Concurrent-And-Parallel-Programming/T2-Adaptive-Quadrature/aquad3.c:238-248 | The master starts on intervals of equal width that tile [l, r] |
| QuadExact.FarmIsComposite | INF2591-Concurrent-And-Parallel-Programming/T2-Adaptive-Quadrature/aquad3.c:91-355 | The total of the master is the composite trapezoid sum over intervals that tile [l, r] and all meet the tolerance |
| QuadExact.FarmIntegratesLinear | INF2591-Concurrent-And-Parallel-Programming/T2-Adaptive-Quadrature/aquad3.c:91-355 | For every linear integrand the total of the master is the integral over [l, r] |
| QuadTerm.StepCheapens | INF2591-Concurrent-And-Parallel-Programming/T2-Adaptive-Quadrature/aquad3.c:117-201 | A measure of the work and the messages left drops by at least one with every step |
| QuadTerm.RunIsFinite | INF2591-Concurrent-And-Parallel-Programming/T2-Adaptive-Quadrature/aquad3.c:117-201 | Every run is finite |
| QuadProgram.CurveSubarea | INF2591-Concurrent-And-Parallel-Programming/T2-Adaptive-Quadrature/aquad2.c:226-240 | The recursion returns the area of its interval, which QuadExact.AreaIsComposite gives in terms of the integrand |
| QuadProgram.WorkStepsSend | INF2591-Concurrent-And-Parallel-Programming/T2-Adaptive-Quadrature/aquad3.c:276-308 | The work steps of the farm send exactly the messages of the recursion, in its order |
| QuadProgram.CurveSubareaEvery | INF2591-Concurrent-And-Parallel-Programming/T2-Adaptive-Quadrature/aquad3.c:339-355 | The worker sends back every right half and reports the leftmost leaf |
| QuadProgram.EverySends | INF2591-Concurrent-And-Parallel-Programming/T2-Adaptive-Quadrature/aquad3.c:339-355 | What is sent back are right halves down to the leftmost leaf, and the report is that leaf |
| QuadProgram.FirstSends | INF2591-Concurrent-And-Parallel-Programming/T2-Adaptive-Quadrature/aquad3-version2.c:339-364 | The second version sends back the right half of the task, or nothing, and reports the rest |
| QuadProgram.CurveSubareaFirst | INF2591-Concurrent-And-Parallel-Programming/T2-Adaptive-Quadrature/aquad3-version2.c:339-364 | The second version sends back at most one right half and adds up the rest |
| QuadProgram.Master.constructor | INF2591-Concurrent-And-Parallel-Programming/T2-Adaptive-Quadrature/aquad3.c:91-117 | The master before its first message |
| QuadProgram.Master.Receive | INF2591-Concurrent-And-Parallel-Programming/T2-Adaptive-Quadrature/aquad3.c:118-201 | One message changes totals, idle count, flags and stack as the step relation says |
| BufferTokens.StepKeepsTokens | INF2591-Concurrent-And-Parallel-Programming/T1-Limited-Buffer/limitedbuffer.c:34-163 | Every atomic step of every thread keeps the split binary semaphore invariant and the counters |
| BufferTokens.RunKeepsTokens | INF2591-Concurrent-And-Parallel-Programming/T1-Limited-Buffer/limitedbuffer.c:34-163 | E + sW + the sum of sR + the threads inside is 1, waits and posts count the parked threads, nW and nR the active ones, for any number of producers and consumers |
| BufferTokens.InitialTokens | INF2591-Concurrent-And-Parallel-Programming/T1-Limited-Buffer/limitedbuffer.c:8-48 | Creation establishes it |
| BufferTokens.MutualExclusion | INF2591-Concurrent-And-Parallel-Programming/T1-Limited-Buffer/limitedbuffer.c:78-163 | No two threads are ever in the critical region |
| BufferMarks.ParksIffMarked | INF2591-Concurrent-And-Parallel-Programming/T1-Limited-Buffer/limitedbuffer.c:79-96 | A deposit parks iff some consumer has the next position still to read |
| BufferMarks.DepositMarksAll | INF2591-Concurrent-And-Parallel-Programming/T1-Limited-Buffer/limitedbuffer.c:108-117 | After a deposit every consumer has its position to read, and no other mark has changed |
| BufferMarks.SignalGives | INF2591-Concurrent-And-Parallel-Programming/T1-Limited-Buffer/limitedbuffer.c:50-76 | SIGNAL wakes the first waiting reader iff no writer is active, failing that a writer iff none is active, nobody reads the next position and no consumer has it still to read, and else opens the entry |
| BufferMarks.ConsumerTouchesOwn | INF2591-Concurrent-And-Parallel-Programming/T1-Limited-Buffer/limitedbuffer.c:123-163 | A consumer sleeps iff its own mark is clear, moves its own index only, and on leaving clears its own mark only |
| BufferMarks.StoresOnlyWhatAllHaveRead | INF2591-Concurrent-And-Parallel-Programming/T1-Limited-Buffer/limitedbuffer.c:78-163 | With one producer and any number of consumers every store finds no consumer that has the position still to read, and the buffer holds the last n deposits in ring order |
| BufferMarks.AllGoRound | INF2591-Concurrent-And-Parallel-Programming/T1-Limited-Buffer/limitedbuffer.c:78-163 | With any number of threads the write index has moved on once a deposit and every consumer once a turn, around the ring |
| BufferFifo.ProduceKeeps | INF2591-Concurrent-And-Parallel-Programming/T1-Limited-Buffer/limitedbuffer.c:78-121 | Every step of the one producer keeps the ring invariant |
| BufferFifo.ConsumeKeeps | INF2591-Concurrent-And-Parallel-Programming/T1-Limited-Buffer/limitedbuffer.c:133-163 | Every step of the one consumer keeps it |
| BufferFifo.RunKeepsFifo | INF2591-Concurrent-And-Parallel-Programming/T1-Limited-Buffer/limitedbuffer.c:78-163 | So does every run |
| BufferFifo.Fifo | INF2591-Concurrent-And-Parallel-Programming/T1-Limited-Buffer/limitedbuffer.c:78-163 | One producer and one consumer, any capacity, any interleaving: the returned deposits have an order (here the only one) of which what was consumed is a prefix and the rest waits in the buffer; no unread position is overwritten, no position is read before it was written |
| BufferFifo.NeverBothBlocked | INF2591-Concurrent-And-Parallel-Programming/T1-Limited-Buffer/limitedbuffer.c:78-163 | No deadlock: when neither can move one of them has nothing left to do; with as many reads as writes everything was delivered in order |
| BufferFifo.StepLowersWork | INF2591-Concurrent-And-Parallel-Programming/T1-Limited-Buffer/limitedbuffer.c:78-163 | Every step lowers a measure, with any number of threads |
| BufferFifo.RunIsFinite | INF2591-Concurrent-And-Parallel-Programming/T1-Limited-Buffer/limitedbuffer.c:78-163 | Every run is finite |
| BufferLimits.TwoProducersLoseAValue | INF2591-Concurrent-And-Parallel-Programming/T1-Limited-Buffer/limitedbuffer.c:83-97 | At every capacity, with any other threads, two producers have a run that writes one slot twice: both deposits return, one mark is left and the first value is gone, because the deposit guard does not look at active writers |
| BufferLimits.TwoConsumersReadTwice | INF2591-Concurrent-And-Parallel-Programming/T1-Limited-Buffer/limitedbuffer.c:59-67 | At every capacity, with any other threads, two consumers have a run in which one of them reads again after the only deposited value, and gets that value twice (capacity 1) or an unwritten slot, because SIGNAL wakes a reader without looking at its mark |
| BufferLimits.QueueIffOneOfEach | INF2591-Concurrent-And-Parallel-Programming/T1-Limited-Buffer/limitedbuffer.c:78-163 | At every capacity, with p producers and c consumers the buffer is a queue in every run iff p and c are one |
| BufferProgram.Lbuf.constructor | INF2591-Concurrent-And-Parallel-Programming/T1-Limited-Buffer/limitedbuffer.c:8-48 | The fields after creation are the initial state |
| BufferProgram.Lbuf.IsFree | INF2591-Concurrent-And-Parallel-Programming/T1-Limited-Buffer/limitedbuffer.c:51-57 | The loop answers whether no consumer at all has the position still to read |
| BufferProgram.Lbuf.Signal | INF2591-Concurrent-And-Parallel-Programming/T1-Limited-Buffer/limitedbuffer.c:50-76 | SIGNAL passes the baton as specified: the first sleeping reader, else a parked writer, else the entry |
| BufferProgram.Lbuf.DepositLook | INF2591-Concurrent-And-Parallel-Programming/T1-Limited-Buffer/limitedbuffer.c:80-99 | The guard of a deposit: parks iff the mark of any consumer is set, or enters as a writer |
| BufferProgram.Lbuf.DepositBegin | INF2591-Concurrent-And-Parallel-Programming/T1-Limited-Buffer/limitedbuffer.c:93-99 | A woken producer enters as a writer |
| BufferProgram.Lbuf.DepositStore | INF2591-Concurrent-And-Parallel-Programming/T1-Limited-Buffer/limitedbuffer.c:101-104 | The store changes one position and no counter |
| BufferProgram.Lbuf.DepositEnd | INF2591-Concurrent-And-Parallel-Programming/T1-Limited-Buffer/limitedbuffer.c:106-120 | Marks the position for every consumer and advances the write index around the ring |
| BufferProgram.Lbuf.ConsumeLook | INF2591-Concurrent-And-Parallel-Programming/T1-Limited-Buffer/limitedbuffer.c:123-149 | Takes the next position of the consumer, advances its index around the ring, and sleeps or reads |
| BufferProgram.Lbuf.ConsumeBegin | INF2591-Concurrent-And-Parallel-Programming/T1-Limited-Buffer/limitedbuffer.c:143-149 | A woken consumer starts reading |
| BufferProgram.Lbuf.ConsumeEnd | INF2591-Concurrent-And-Parallel-Programming/T1-Limited-Buffer/limitedbuffer.c:153-162 | Gives the position up |
| Interpolation.NevilleGrows | INF1608-Numerical-Analysis/Labs/Lab 6/Lab 6/poly.c:70-76 | Adding a node at either end adds one term with the same divided difference |
| Interpolation.NewtonIsNeville | INF1608-Numerical-Analysis/Labs/Lab 6/Lab 6/poly.c:89-105 | Newton's form is Neville's recurrence at every point |
| Interpolation.LagrangeIsNeville | INF1608-Numerical-Analysis/Labs/Lab 5/Lab 5/interp.c:145-165 | So is Lagrange's, over any block of nodes |
| Interpolation.NewtonInterpolates | INF1608-Numerical-Analysis/Labs/Lab 6/Lab 6/poly.c:43-105 | For distinct nodes Newton's form takes the given value at every node |
| Interpolation.NewtonIsLagrange | INF1608-Numerical-Analysis/Labs/Lab 5/Lab 5/interp.c:145-165 | And equals Lagrange's at every real point |
| Interpolation.FillRow | INF1608-Numerical-Analysis/Labs/Lab 6/Lab 6/poly.c:72-75 | The inner loop fills one row of the table with divided differences and touches nothing else |
| Interpolation.NewtonCompute | INF1608-Numerical-Analysis/Labs/Lab 6/Lab 6/poly.c:43-87 | The coefficients are the divided differences of the leading nodes |
| Interpolation.NewtonEval | INF1608-Numerical-Analysis/Labs/Lab 6/Lab 6/poly.c:89-105 | The running product and sum give Newton's form, which is Lagrange's, and y at every node |
| Interpolation.BasisAt | INF1608-Numerical-Analysis/Labs/Lab 5/Lab 5/interp.c:152-159 | The inner loop gives the basis polynomial of its node |
| Interpolation.LagrangeEval | INF1608-Numerical-Analysis/Labs/Lab 5/Lab 5/interp.c:145-165 | The two loops give Lagrange's form, and y at every node |
| Plu.ZeroPivot | INF1608-Numerical-Analysis/Labs/Lab 5/Lab 5/interp.c:31-39 | A zero pivot means that the whole column is zero from the diagonal down |
| Plu.PivotIsFirstLargest | INF1608-Numerical-Analysis/Labs/Lab 5/Lab 5/interp.c:31-39 | The pivot row has the largest entry at or below the diagonal, and is the first one that has |
| Plu.MultipliersAreSmall | INF1608-Numerical-Analysis/Labs/Lab 5/Lab 5/interp.c:28-67 | Every multiplier stored below the diagonal lies between -1 and 1 |
| Plu.SwapTracks | INF1608-Numerical-Analysis/Labs/Lab 5/Lab 5/interp.c:41-52 | Swapping two rows below the finished ones keeps what the factors stand for |
| Plu.EliminateTracks | INF1608-Numerical-Analysis/Labs/Lab 5/Lab 5/interp.c:56-66 | Eliminating a column in place keeps it too |
| Plu.StageTracks | INF1608-Numerical-Analysis/Labs/Lab 5/Lab 5/interp.c:28-67 | One column, pivoting included, keeps it or stops on a zero column |
| Plu.StagesTrack | INF1608-Numerical-Analysis/Labs/Lab 5/Lab 5/interp.c:28-67 | After any number of columns every row of the original is its row of multipliers times U plus what is left |
| Plu.FactorsMultiply | INF1608-Numerical-Analysis/Labs/Lab 5/Lab 5/interp.c:6-70 | When no pivot is zero P is a permutation and P * A = L * U |
| PluSolve.RowTimes | INF1608-Numerical-Analysis/Labs/Lab 5/Lab 5/interp.c:72-106 | A row of the original times any vector, in terms of the factors |
| PluSolve.BackwardSolves | INF1608-Numerical-Analysis/Labs/Lab 5/Lab 5/interp.c:91-101 | Back substitution solves the triangular system |
| PluSolve.BackwardOnly | INF1608-Numerical-Analysis/Labs/Lab 5/Lab 5/interp.c:91-101 | And nothing else does |
| PluSolve.SolvesIffUpper | INF1608-Numerical-Analysis/Labs/Lab 5/Lab 5/interp.c:72-106 | A vector solves A x = b iff it solves U x = y for the y of forward substitution |
| PluSolve.SolutionIsExact | INF1608-Numerical-Analysis/Labs/Lab 5/Lab 5/interp.c:6-106 | With nonzero pivots the result solves the original system and is its only solution |
| PluSolve.StuckHasKernel | INF1608-Numerical-Analysis/Labs/Lab 5/Lab 5/interp.c:58-58 | A zero pivot shows a nonzero vector that A sends to zero |
| PluSolve.GetsThroughIffRegular | INF1608-Numerical-Analysis/Labs/Lab 5/Lab 5/interp.c:28-101 | No division by zero happens in either function iff only the zero vector is sent to zero |
| PluProgram.FindPivot | INF1608-Numerical-Analysis/Labs/Lab 5/Lab 5/interp.c:31-39 | The loop finds the first row of largest entry: none at or below the diagonal is larger, none before it is as large |
| PluProgram.Swap | INF1608-Numerical-Analysis/Labs/Lab 5/Lab 5/interp.c:41-52 | The loop over columns swaps two rows |
| PluProgram.Reduce | INF1608-Numerical-Analysis/Labs/Lab 5/Lab 5/interp.c:56-66 | The two loops eliminate a column in place |
| PluProgram.FactorInPlace | INF1608-Numerical-Analysis/Labs/Lab 5/Lab 5/interp.c:6-70 | The array ends as the factors, with multipliers between -1 and 1, and P as the matrix of their permutation, or a pivot was zero |
| PluProgram.MultV | INF1608-Numerical-Analysis/Labs/Lab 5/Lab 5/interp.c:78-79 | The product of P and b, entry by entry |
| PluProgram.TimesPermutation | INF1608-Numerical-Analysis/Labs/Lab 5/Lab 5/interp.c:78-79 | P times b reorders b |
| PluProgram.ForwardInPlace | INF1608-Numerical-Analysis/Labs/Lab 5/Lab 5/interp.c:81-88 | The column-by-column loop leaves y in place of P b |
| PluProgram.BackwardInPlace | INF1608-Numerical-Analysis/Labs/Lab 5/Lab 5/interp.c:90-101 | The loop from the last row up leaves x |
| PluProgram.Solve | INF1608-Numerical-Analysis/Labs/Lab 5/Lab 5/interp.c:72-106 | The solution of the factored system, or the last pivot was zero |
| Vandermonde.DotIsPoly | INF1608-Numerical-Analysis/Labs/Lab 5/Lab 5/interp.c:115-121 | A row of powers times coefficients is the value of the polynomial |
| Vandermonde.RootsForceZero | INF1608-Numerical-Analysis/Labs/Lab 5/Lab 5/interp.c:108-130 | A polynomial with as many distinct roots as coefficients is zero |
| Vandermonde.VanderRegular | INF1608-Numerical-Analysis/Labs/Lab 5/Lab 5/interp.c:108-130 | The matrix of powers of distinct nodes sends only zero to zero |
| Vandermonde.TermsHaveCoefficients | INF1608-Numerical-Analysis/Labs/Lab 5/Lab 5/interp.c:145-165 | Lagrange's form is a polynomial of degree below n |
| Vandermonde.InterpolaIsLagrange | INF1608-Numerical-Analysis/Labs/Lab 5/Lab 5/interp.c:108-165 | On distinct nodes the elimination meets no zero pivot, and the polynomial it finds has the given values and is Lagrange's at every real point |
| Vandermonde.Interpola | INF1608-Numerical-Analysis/Labs/Lab 5/Lab 5/interp.c:108-130 | The program returns coefficients whose polynomial is Lagrange's at every point |
| Vandermonde.Avalia | INF1608-Numerical-Analysis/Labs/Lab 5/Lab 5/interp.c:132-143 | The running power and sum give the polynomial's value |
| Paging.EarliestFacts | INF1019-Computer-Systems/trab2/src/lru.c:5-29 | The scan finds the first page of least access time before now, or stays at the head |
| Paging.SecondChanceFacts | INF1019-Computer-Systems/trab2/src/sec.c:5-36 | What the recursion does from any state it can be in: victim, pages that lose their bit, number of calls |
| Paging.SecondChanceEvicts | INF1019-Computer-Systems/trab2/src/sec.c:5-36 | At a fault the victim is the first page in order of use and list position with a clear bit, or the head; exactly the pages before it lose their bit; at most one more call than set bits |
| Paging.CallsClearBits | INF1019-Computer-Systems/trab2/src/sec.c:28-35 | Every call but the last clears one bit |
| Paging.SetBitsCounts | INF1019-Computer-Systems/trab2/src/sec.c:28-35 | The count of set bits is the number of frames whose bit is set |
| Paging.NotRecentEvictsLowest | INF1019-Computer-Systems/trab2/src/nru.c:19-85 | Over all page statuses the simulator stores and all draws the failure exit is unreachable and the victim is of the lowest class present |
| Paging.NotRecentIsFair | INF1019-Computer-Systems/trab2/src/nru.c:48-80 | Every page of that class can be drawn |
| PagingSim.AccessKeeps | INF1019-Computer-Systems/trab2/src/simulation.c:178-227 | Under every algorithm an access succeeds, leaves the page in memory, evicts one page and only when the memory is full, and counts a fault just when the page was absent and a write just when it was written at a fault |
| PagingSim.RunKeeps | INF1019-Computer-Systems/trab2/src/simulation.c:178-227 | No trace and no draws make the simulator exit |
| PagingSim.SecEvictsInRun | INF1019-Computer-Systems/trab2/src/sec.c:5-36 | The second-chance rule for the states that traces reach |
| PagingSim.AccessInPlace | INF1019-Computer-Systems/trab2/src/simulation.c:178-227 | One access leaves every page in its frame or replaces it by the page accessed, and sets no reference bit |
| PagingSim.BitsAreNotSetAgain | INF1019-Computer-Systems/trab2/src/simulation.c:143-155 | A page that has lost its reference bit is without it after every longer trace that keeps the page in memory, since accesses do not set it |
| PagingSim.NruEvictsInRun | INF1019-Computer-Systems/trab2/src/simulation.c:221-226 | Until maxPages * 1024 accesses the victim is of the lowest class present; afterwards the flags are reset at every replacement, the victim is the frame drawn, and it is of the lowest class exactly when that frame is |
| PagingSim.AlwaysLowestIff | INF1019-Computer-Systems/trab2/src/simulation.c:221-226 | With m frames, after traces of a given length the victim is always of the lowest class iff m is one or the length is below m * 1024; otherwise a trace and a draw evict a page written over and over while one read once stays |
| PagingSim.RecentIsByLastUse | INF1019-Computer-Systems/trab2/src/simulation.c:178-227 | The list of used pages holds each once, in the order of their last use |
| PagingSim.LruHoldsMostRecent | INF1019-Computer-Systems/trab2/src/lru.c:5-29 | After any trace the frames hold, without duplicates, exactly the maxPages most recently used pages, with their last times of use |
| PagingSim.VictimIsLast | INF1019-Computer-Systems/trab2/src/lru.c:5-29 | The victim is the page at the end of that list |
| PagingSim.LruInclusion | INF1019-Computer-Systems/trab2/src/lru.c:5-29 | With one more frame no resident page is lost and no fault is added, whatever the trace |
| PagingSim.LruFaultsMonotone | INF1019-Computer-Systems/trab2/src/lru.c:5-29 | Faults never increase from any memory size to any larger one |
| PagingProgram.GetNeededBits | INF1019-Computer-Systems/trab2/src/simulation.c:45-53 | The position of the highest set bit |
| PagingProgram.Simulation.constructor | INF1019-Computer-Systems/trab2/src/simulation.c:55-86 | An empty memory of physical size over page size frames |
| PagingProgram.Simulation.FindEarliest | INF1019-Computer-Systems/trab2/src/lru.c:13-26 | The loop finds the earliest used frame |
| PagingProgram.Simulation.AlgoLru | INF1019-Computer-Systems/trab2/src/lru.c:5-29 | Replaces the frame the specification says |
| PagingProgram.Simulation.AlgoSec | INF1019-Computer-Systems/trab2/src/sec.c:5-36 | The recursion ends and leaves the frames the specification says |
| PagingProgram.Simulation.AlgoNru | INF1019-Computer-Systems/trab2/src/nru.c:19-85 | Counts the classes and replaces the frame the specification says, or exits iff it does |
| PagingProgram.Simulation.EvictNth | INF1019-Computer-Systems/trab2/src/nru.c:67-84 | The second loop replaces the drawn page of the class |
| PagingProgram.Simulation.ResetAllFlags | INF1019-Computer-Systems/trab2/src/simulation.c:157-176 | Clears the status of every frame and nothing else |
| PagingProgram.Simulation.CreatePte | INF1019-Computer-Systems/trab2/src/simulation.c:118-134 | The new entry, and the count of writes |
| PagingProgram.Simulation.AccessMemory | INF1019-Computer-Systems/trab2/src/simulation.c:143-155 | A hit keeps the page and its reference bit, makes now its last use, and puts it into class 3 if written and class 2 if read, whatever its class was |
| PagingProgram.Simulation.PageFaultReplace | INF1019-Computer-Systems/trab2/src/simulation.c:96-116 | Counts the fault and runs the chosen algorithm |
| PagingProgram.Simulation.SimulateMemoryAccess | INF1019-Computer-Systems/trab2/src/simulation.c:178-227 | One line of the trace never fails and takes the state where the specification of an access says |
| LlvmCode.AcceptedIff | INF1715-Compilers/llvm.c:324-454 | The generator gets through iff no condition is a bare variable or an arithmetic expression |
| LlvmCode.CmdText | INF1715-Compilers/llvm.c:238-294 | Every label number a command takes is defined once in its code, no other label is, and temporaries are assigned at most once |
| LlvmCode.CmdTargets | INF1715-Compilers/llvm.c:238-294 | Every branch of a command goes to a label the command took |
| LlvmCode.TextWellFormed | INF1715-Compilers/llvm.c:53-56 | Every label is defined once, every branch target is defined, every temporary is assigned at one place only, and no number from before is used again |
| LlvmCode.OneNumberEach | INF1715-Compilers/llvm.c:465-560 | Every node of an expression takes one temporary number, a parameter too, and the result has the last one unless it is a parameter |
| LlvmMachine.FindOnly | INF1715-Compilers/llvm.c:53-56 | With labels defined once a branch finds its label wherever it stands |
| LlvmMachine.GoesOnOrBranches | INF1715-Compilers/llvm.c:53-56 | The machine goes to the next instruction or to just after a label the instruction branches to |
| Monga.ComparesIntegers | INF1715-Compilers/llvm.c:346-386 | The five comparisons of 32-bit integers are those of the integers |
| Monga.AppliesIntegers | INF1715-Compilers/llvm.c:465-500 | Sums, differences and products are those of the integers modulo 2^32 |
| Monga.DividesIntegers | INF1715-Compilers/llvm.c:465-500 | The quotient leaves a remainder smaller than the divisor that is zero or has the sign of the dividend; it is undefined for a zero divisor and for the one quotient that does not fit |
| LlvmCorrect.SimExp | INF1715-Compilers/llvm.c:465-555 | The code of an expression leaves its value in the result's temporary and disturbs no earlier one, or faults iff the value is undefined |
| LlvmCorrect.MinusOne | INF1715-Compilers/llvm.c:630-641 | Multiplying by -1 is negation modulo 2^32 |
| LlvmCorrect.SimCond | INF1715-Compilers/llvm.c:324-454 | The short-circuit code of a condition ends at the label of its value, having evaluated only what the value needs |
| LlvmCorrect.SimCmd | INF1715-Compilers/llvm.c:238-294 | The code of a command does what the command means: reaches its end with the variables updated, returns, faults, or runs on |
| LlvmCorrect.SimLoop | INF1715-Compilers/llvm.c:283-294 | From either copy of the test a loop makes the iterations its source makes |
| LlvmCorrect.SimVars | INF1715-Compilers/llvm.c:92-136 | The allocas of a block give its variables fresh cells without values, each time it is entered |
| LlvmCorrect.CmdKeepsNumbers | INF1715-Compilers/llvm.c:216-236 | Generating a command changes no number of a variable declared outside it |
| LlvmCorrect.GenGlobalsPlaces | INF1715-Compilers/llvm.c:98-122 | Global variables get distinct cells |
| LlvmCorrect.CallWithFuel | INF1715-Compilers/llvm.c:139-156 | What any bound on iterations says about a whole function |
| LlvmCorrect.FunctionCorrect | INF1715-Compilers/llvm.c:139-156 | The generated function returns iff its source does, with the same value and globals, and faults iff the source does something undefined or ends without a return |
| LlvmGenerator.Generator.constructor | INF1715-Compilers/llvm.c:28-31 | Counters at zero, nothing written |
| LlvmGenerator.Generator.WriteExp | INF1715-Compilers/llvm.c:465-702 | Appends exactly the code of the expression and moves the counter as the specification says |
| LlvmGenerator.Generator.WriteCond | INF1715-Compilers/llvm.c:324-454 | The same for conditions, or exits iff the specification does |
| LlvmGenerator.Generator.WriteVars | INF1715-Compilers/llvm.c:223-236 | One alloca for each variable, its number written into the declaration |
| LlvmGenerator.Generator.WriteWhile | INF1715-Compilers/llvm.c:283-294 | The same for loops |
| LlvmGenerator.Generator.WriteIfElse | INF1715-Compilers/llvm.c:254-273 | The same for if-else |
| LlvmGenerator.Generator.WriteCmd | INF1715-Compilers/llvm.c:238-281 | The same for every command |
| LlvmGenerator.Generator.WriteCmds | INF1715-Compilers/llvm.c:201-214 | The loop over a list of commands |
| LlvmGenerator.Generator.WriteFunc | INF1715-Compilers/llvm.c:139-164 | Numbers for the parameters, then the body |
| Compacta.RoundTrip | INF1018-Software-Basico/Trabalho 1 (Gravação Compactada)/compacta.c:11-175 | Up to 127 structs of up to 127 fields come back as they were: byte order, count, field types, and every field's bytes, reversed when big-endian |
| Compacta.BytesComeBack | INF1018-Software-Basico/Trabalho 1 (Gravação Compactada)/compacta.c:11-175 | Every field is shown with the bytes of memory at its offset, in order when little-endian and reversed when big-endian; offsets are multiples of the width of the field, as early as the field before allows, and a struct ends at the first multiple of its widest field |
| Compacta.SmallFile | INF1018-Software-Basico/Trabalho 1 (Gravação Compactada)/compacta.c:11-118 | The file for one struct of a char, a short and an int, byte by byte in either order |
| Compacta.CountIsSignedByte | INF1018-Software-Basico/Trabalho 1 (Gravação Compactada)/compacta.c:69-175 | For any number of structs the reader shows its low byte as a signed number, and that many structs from the first on, or none if it is negative |
| Compacta.CountsSurviveIff | INF1018-Software-Basico/Trabalho 1 (Gravação Compactada)/compacta.c:69-135 | The numbers of structs and fields come back iff neither is over 127 |
| Compacta.PackedLength | INF1018-Software-Basico/Trabalho 1 (Gravação Compactada)/compacta.c:64-118 | The file is 2 + ceil(f/4) + n * (sum of the field sizes) bytes: no padding is written |
| Compacta.AlignUp | INF1018-Software-Basico/Trabalho 1 (Gravação Compactada)/compacta.c:27-44 | Fields are taken at the least multiple of their size from the running offset on |
| Compacta.UnpackDescriptor | INF1018-Software-Basico/Trabalho 1 (Gravação Compactada)/compacta.c:144-152 | Shifting out the top bits two at a time gives back the four codes packed into a byte |
| Compacta.ReadDescriptors | INF1018-Software-Basico/Trabalho 1 (Gravação Compactada)/compacta.c:78-152 | All descriptor bytes read back as the field codes |
| Compacta.ReadAllStructs | INF1018-Software-Basico/Trabalho 1 (Gravação Compactada)/compacta.c:113-171 | All structs read back as their fields |
| CompactaProgram.PadTo | INF1018-Software-Basico/Trabalho 1 (Gravação Compactada)/compacta.c:27-44 | The counting loop reaches the aligned offset |
| CompactaProgram.PackedFile.WriteReversed | INF1018-Software-Basico/Trabalho 1 (Gravação Compactada)/compacta.c:34-37 | The descending loop writes a field's bytes last to first |
| CompactaProgram.PackedFile.ProcessaStruct | INF1018-Software-Basico/Trabalho 1 (Gravação Compactada)/compacta.c:11-62 | One struct appends its fields, each with the bytes at its offset, in order when little-endian and reversed when big-endian |
| CompactaProgram.PackedFile.WriteCampos | INF1018-Software-Basico/Trabalho 1 (Gravação Compactada)/compacta.c:78-104 | The descriptor bytes, with the size of the struct and its widest fields on the side |
| CompactaProgram.PackedFile.WritePacked | INF1018-Software-Basico/Trabalho 1 (Gravação Compactada)/compacta.c:64-118 | The whole file |
| CompactaProgram.PackedFile.UnpackByte | INF1018-Software-Basico/Trabalho 1 (Gravação Compactada)/compacta.c:146-151 | The shifting loop gives the codes of one byte |
| CompactaProgram.PackedFile.ReadTipos | INF1018-Software-Basico/Trabalho 1 (Gravação Compactada)/compacta.c:143-152 | The loop over descriptor bytes |
| CompactaProgram.PackedFile.Show | INF1018-Software-Basico/Trabalho 1 (Gravação Compactada)/compacta.c:120-175 | The reader shows what the specification reads |
| Bitmap.LineSize | INF1761-Computer-Graphics/Trabalho 1/Trabalho 1/ImageLoader.cpp:98-104 | A row takes the least multiple of four bytes that holds three for each pixel |
| Bitmap.QuantizeComponent | INF1761-Computer-Graphics/Trabalho 1/Trabalho 1/ImageLoader.cpp:125-212 | A component k/255 is written as k |
| Bitmap.QuantizeIsClose | INF1761-Computer-Graphics/Trabalho 1/Trabalho 1/ImageLoader.cpp:202-212 | A component comes back within 1/510 iff it lies between -1/510 and 511/510 |
| Bitmap.HeaderFields | INF1761-Computer-Graphics/Trabalho 1/Trabalho 1/ImageLoader.cpp:47-91 | The header written passes every check of the reader and gives back width and height |
| Bitmap.HeaderBytes | INF1761-Computer-Graphics/Trabalho 1/Trabalho 1/ImageLoader.cpp:138-192 | The file begins with BM and its own length, and has width and height low byte first |
| Bitmap.WrittenAt | INF1761-Computer-Graphics/Trabalho 1/Trabalho 1/ImageLoader.cpp:193-231 | Each component of each pixel is one byte at a known place: rows of LineSize bytes after 54, first row first, three bytes a pixel with blue first, nothing after the last row |
| Bitmap.PaddingAt | INF1761-Computer-Graphics/Trabalho 1/Trabalho 1/ImageLoader.cpp:193-231 | The rest of every row is zero |
| Bitmap.ReadRowsAt | INF1761-Computer-Graphics/Trabalho 1/Trabalho 1/ImageLoader.cpp:93-134 | The reader takes every component from that byte |
| Bitmap.ReadIff | INF1761-Computer-Graphics/Trabalho 1/Trabalho 1/ImageLoader.cpp:47-134 | A file is read iff it has the header of an uncompressed 24-bit bitmap and bytes for every row; a wrong type and reserved words that are not zero are told apart |
| Bitmap.RoundTrip | INF1761-Computer-Graphics/Trabalho 1/Trabalho 1/ImageLoader.cpp:29-231 | Reading a written image gives the same size and the nearest storable components, and writing that again gives identical bytes |
| Bitmap.ImageIsClose | INF1761-Computer-Graphics/Trabalho 1/Trabalho 1/ImageLoader.cpp:29-231 | All components of an image come back within 1/510 iff all lie between -1/510 and 511/510 |
| Bitmap.ReadImagesSurvive | INF1761-Computer-Graphics/Trabalho 1/Trabalho 1/ImageLoader.cpp:29-231 | An image that came out of a file is written and read back unchanged |
| BitmapProgram.RowLength | INF1761-Computer-Graphics/Trabalho 1/Trabalho 1/ImageLoader.cpp:154-159 | Setting the two low bits and adding one gives the padded row length |
| BitmapProgram.BytesOfWrap | INF1761-Computer-Graphics/Trabalho 1/Trabalho 1/ImageLoader.cpp:288-303 | The four shifted bytes are the word's, for negative numbers too |
| BitmapProgram.Stream.PutWord | INF1761-Computer-Graphics/Trabalho 1/Trabalho 1/ImageLoader.cpp:253-265 | Two bytes, low one first |
| BitmapProgram.Stream.PutLong | INF1761-Computer-Graphics/Trabalho 1/Trabalho 1/ImageLoader.cpp:288-303 | Four bytes, low one first |
| BitmapProgram.Stream.GetWord | INF1761-Computer-Graphics/Trabalho 1/Trabalho 1/ImageLoader.cpp:235-249 | Two bytes read back |
| BitmapProgram.Stream.GetDword | INF1761-Computer-Graphics/Trabalho 1/Trabalho 1/ImageLoader.cpp:341-356 | Four bytes read back |
| BitmapProgram.Stream.FillRow | INF1761-Computer-Graphics/Trabalho 1/Trabalho 1/ImageLoader.cpp:195-214 | One row of pixels into the buffer, blue first, the padding kept |
| BitmapProgram.Stream.WriteBmp | INF1761-Computer-Graphics/Trabalho 1/Trabalho 1/ImageLoader.cpp:138-231 | The whole file is the header and the padded rows |
| BitmapProgram.Stream.ReadHeader | INF1761-Computer-Graphics/Trabalho 1/Trabalho 1/ImageLoader.cpp:48-91 | The checks in their order, and the size |
| BitmapProgram.Stream.TakeRow | INF1761-Computer-Graphics/Trabalho 1/Trabalho 1/ImageLoader.cpp:123-128 | One row of components, red first |
| BitmapProgram.Stream.ReadBmp | INF1761-Computer-Graphics/Trabalho 1/Trabalho 1/ImageLoader.cpp:29-134 | The whole reader |

## Left out

- SbCorrect.CompilerCorrect: the text scanning with `fscanf` and `fseek`, comments, the 50-line and 800-byte limits are not modelled; a program is its list of parsed statements, and uninitialised locals are an arbitrary start state.
- SbCorrect.CompilerCorrect: the stack is doubleword-aligned memory separate from the code, and functions whose emitted code reaches 2^31 - 1 bytes are excluded; `imul` leaves the zero flag alone, which no emitted code reads.
- SbGenerator.Generator.Run: takes a buffer and a while stack that are large enough; the program allocates 800 bytes and 25 slots for its 50 lines.
- TspSearch.SearchIsOptimal: assumes runs in which no thread reads the best cost while another is between Copy_tour and Add_city; with more than one thread there are others, and some of them lose the optimum (TspLimits).
- TspTours.TourStruct.RemoveLastCity: takes the tour before the addition as a ghost argument; it is only ever called on a tour just extended.
- TSP: the hand-off of a split stack through the condition variable in `Terminated` is one step; whether a waiting thread can be woken without work depends on the order in which threads regain the mutex.
- TspProgram.TourStack.SplitStack: with a split size of one the new stack can be empty, which the program does not expect.
- TSP: the costs broadcast between processes are received but never used for pruning, so they are left out; so are `int` overflow in the queue-size estimate, and the barriers.
- TspPartition.ProgramIsOptimal: covers the case that the size estimate is granted, which TspEstimate.GrantedIff decides; when it is not, the threads exit without searching.
- TspLimits.AlwaysOptimalIffOneThread: beyond two threads the start that loses the optimum has threads without work; whether the program hands such a start to more than two threads is not claimed.
- LlvmCorrect.FunctionCorrect: floats, chars, arrays, strings, calls, and assignment to parameters are left out. So are boolean expressions used as values: their temporaries are numbered from the label counter, so single assignment is not claimed there.
- LlvmCorrect.FunctionCorrect: reading a variable before it is assigned, division by zero and the one quotient that overflows are undefined on both sides; on the machine they fault.
- LlvmCode.GenExp: a variable whose declaration was not generated yet has no number in the program; here it has number 0. Type-checked programs have none.
- QuadFarm.FarmRefinesSequential: exact reals, an arbitrary integrand, and an error test that splits every interval only finitely deep; the reuse of the buffer of MPI_Isend before it is sent is not modelled.
- BufferProgram: each critical section is a method; the semaphore waits between them are steps of BufferSpec.
- Interpolation.NewtonEval: exact reals; rounding is left out here and in PLU, quadrature and the bitmap components.
- PluProgram.MultV: `mat_multv` is taken to be the row-by-row product; the allocation in `mat_cria` is left out.
- PluProgram.FactorInPlace: stops at a zero pivot, where the program would divide by zero and go on with infinities.
- `gradconj.c`: its Cholesky factor does not store the scaled row, so no factor identity is claimed. Chebyshev nodes, `interpola` on repeated nodes and the other labs are left out.
- PagingProgram.Simulation.SimulateMemoryAccess: 32-bit overflow of the clock is not modelled; debug output and the exit on a bad configuration are left out.
- Compacta.RoundTrip: field strings of other characters than c, s and i are left out; the fields missing from the last descriptor byte count as code 0, where the program reads past the end of the string. An entry the reader leaves unset counts as 0, and reading past the end of the file is a failure.
- Bitmap.Read: allocation, and what the reader does after its message about a truncated file, are left out; a negative size is an error.
- Files, printing, MPI and pthread calls, allocation failure, the graphical programs, ray tracing and shaders, assembly coroutines, operating-system labs and the games are left out; so are generated and preprocessed headers.
