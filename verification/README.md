# NNabla core: a verified model

Models, in Dafny, of four parts of NNabla that keep state or shuffle bits against a much simpler
specification, and proofs that each meets it. `dafny verify dfyconfig.toml` checks everything.

**Arrays and views.** A `SyncedArray` caches one logical array in several physical copies, puts off
`zero` and `fill`, and has narrowed views that share its memory. `EagerVector` is the reference: one flat
vector on which every operation takes effect at once and a view is an interval. `LazyCells` says which of
several pending requests decides a cell, `SyncedArray` holds the cache itself (class `Family`, all nodes
of one family in an arena, memory blocks as arrays shared by reference) and shows that no caller can tell
the two apart, in any run. `VectorLaws` says what the reference does number by number, and what a read
returns after a write. Element conversion is an uninterpreted function that is the identity on equal
types. `FamilyLimits` says exactly where the code does not keep the promise. `Shapes`, `CountSums`,
`ArrayCounts`, `ReferenceCounts` and `ReferenceRuns` add shapes and strides, narrowing, and the counts of
user references that run from variables over NdArrays to the root array.

**Float conversion.** `float_bits` converts patterns between binary formats. `FloatFormat` and
`FloatConversion` give patterns of arbitrary exponent and significand widths their numbers, characterise
exactly which inputs are rounded correctly, and prove order, error bounds, exact widening and the round
trip; `FloatBits` proves the mask-and-shift code against that. What the code needs of the widths is
`FloatFormat.Admissible`.

**Network expansion.** `NetworkExpander` unrolls loops into a flat network and sorts it. `Network` gives
networks with loops a meaning as equations between values indexed by iterations, a RepeatEnd or
RecurrentOutput standing outside its loop; `Unroll` is the expansion as a function; `Placement` says what
each kind of function may read and under which name expansion puts it; `LoopMeaning` and `LoopValues`
relate the solutions of both networks in the two directions; `WellFormedness` states what is asked of a
network, on the network as it is given, and shows that every round of expansion keeps it; `FlatRun` and
`ExpansionMeaning` say what one pass over the sorted result computes; `NetworkExpander` proves the loops,
tables and the depth-first search against those functions, with the names of functions and the record of
parameter names in `ExpansionNames`. `EndReaders` says what becomes of a loop that reads its own
RepeatEnd: the C++ expander gives it the iteration at hand, while the Python one
(python/src/nnabla/core/graph_def.py:641-644) knows a RepeatEnd only by its last iteration.
`ChainedMarkers` says for every name when the tables find it, and `LostMeaning` gives two networks whose
meaning is lost because they do not. `FreshNaming`, `LoopExamples` and `RecurrentExample` show that nested
and recurrent networks meet the conditions, and `RecurrentExpansion` what one of them is expanded to.

**Batch feeding.** `CyclicStream` is the endless stream of rows that is to be delivered, `RingBuffer` the
sliding buffer that delivers it (`BufferLevel` gives the exact batch sizes for which it can),
`DatasetCache` several of them in step, `BatchQueue` the worker and its consumers as interleaved steps
under one mutex, and `MemoryIterator` with `Epochs` the alternative that reshuffles in memory.

Where the code falls short of what it promises, the exact condition is proved: a view of a view of an
offset view lies on the wrong cells (`FamilyLimits.ViewInPlaceExactly`); destroying a view loses its
pending request, unless the one above repeats it (`FamilyLimits.DestroyKeepsCellsExactly`); the subnormal
path truncates before it rounds and so can miss the nearest number (`FloatFormat.CorrectlyRoundedExactly`,
`FloatConversion.SubnormalMisrounds`); a batch of more than four cache files runs out of the buffer unless the excess divides a file
(`BufferLevel.FitsExactly`); batches larger than the data set run out of it (`Epochs.InsideExactly`); a
variable whose data refuses to be reshaped has taken the new shape already
(`ReferenceCounts.Registry.Reshape`, `ReferenceRuns.DataRefuses`); a body that reads its loop's RepeatEnd
gets the last iteration in the last iteration only (`EndReaders.EndReaderExactly`); a marker that reads
what a RepeatStart or Delay of its own loop hands out, such as a RecurrentOutput behind a Delay or a Delay
of a Delay, asks for instances that nothing writes (`ChainedMarkers.CarriedExactly`,
`ChainedMarkers.KeptExactly`, `LostMeaning.ChainedMeaningLost`); a function inside a loop that reads a
variable from outside asks for one that does not exist (`ChainedMarkers.BodyExactly`,
`LostMeaning.OutsideMeaningLost`). The Python expander keeps markers as Identity layers and looks outside
variables up under their own names (python/src/nnabla/core/graph_def.py:671-673, 684-698).

## Model

| member | source | states |
|---|---|---|
| `SyncedArray.RunFamily` | src/nbla/synced_array.cpp:67-563 | Any sequence of narrow, get, cast-and-write, zero, fill and destroy that respects the limits in `EagerVector.Allowed` gives the caller exactly the outcomes of one flat, eagerly updated vector, and leaves a family that stands for the vector eager execution ends with |
| `SyncedArray.RunOne` | src/nbla/synced_array.cpp:67-563 | Each single operation takes the family to the state, and gives the outcome, that the same operation gives on the flat vector |
| `SyncedArray.Family.constructor` | src/nbla/synced_array.cpp:67-70 | A new array stands for a vector of zeros without an element type |
| `SyncedArray.Family.Get` | src/nbla/synced_array.cpp:213-232 | `get` on any node at any place and type returns, number for number, the node's interval converted from the type the root has to the type asked for (from constants, while there is no type); it changes nothing the vector shows, and executes exactly the requests below the node and below its requesting ancestors |
| `SyncedArray.Family.StoreIs` | src/nbla/synced_array.cpp:109-130 | The flat vector in the fields of the family: constants while the root has no arrays, else numbers at the place and type of the root's head |
| `SyncedArray.Family.CastAndWrite` | src/nbla/synced_array.cpp:146-206 | `cast` followed by writes through its handle is refused exactly for a view whose root has arrays and its head at another place or type; else, number for number, the data stands in the node's cells, what stood elsewhere stays, and a caller that does not only write is handed the old numbers converted |
| `SyncedArray.Family.SetZero` | src/nbla/synced_array.cpp:246-274 | A lazy zero of a node puts zero into exactly its cells of the vector, and on the root forgets the element type |
| `SyncedArray.Family.Fill` | src/nbla/synced_array.cpp:276-300 | A lazy fill of a node puts the number, as a float converted to the type there is, into exactly its cells of the vector, and on the root forgets the element type |
| `SyncedArray.Family.Narrow` | src/nbla/synced_array.cpp:72-100 | A new view changes no number, and is refused exactly if its range meets that of a living sibling |
| `SyncedArray.Family.Destroy` | src/nbla/synced_array.cpp:102-107 | Destroying a view changes no cell if it has no pending request, no cells, or a request that the nearest one above it repeats, which by `FamilyLimits.RepeatedExactly` and `DestroyKeepsCellsExactly` is when nothing is lost |
| `SyncedArray.Family.Zeroing` | src/nbla/synced_array.cpp:516-516 | A node that reports zeroing has only zeros in its interval |
| `SyncedArray.Family.Sync` | src/nbla/synced_array.cpp:306-390 | Afterwards the array for the asked place and type exists, no request is pending, and unless only written it holds the converted values |
| `SyncedArray.Family.SyncHere` | src/nbla/synced_array.cpp:315-390 | The same for one node whose root has been set up |
| `SyncedArray.Family.Cast` | src/nbla/synced_array.cpp:146-206 | The returned handle is the node's stretch of the root's memory and all other copies of the family are gone |
| `SyncedArray.Family.CastRoot` | src/nbla/synced_array.cpp:172-189 | Casting the root to another key links all views anew to the new memory, and to the same key drops every copy but the heads |
| `SyncedArray.Family.CastView` | src/nbla/synced_array.cpp:176-189 | Casting a view keeps the root's memory and drops every copy but the heads |
| `SyncedArray.Family.Evaluate` | src/nbla/synced_array.cpp:340-351 | Executing what is pending from the topmost request on changes no cell of the flat vector and executes exactly the requests below the node and below its requesting ancestors |
| `SyncedArray.Family.TraverseZeroFill` | src/nbla/synced_array.cpp:399-415 | Below a node, the requests of outer nodes are executed before those of inner ones, so that memory ends up as eager execution would leave it |
| `SyncedArray.Family.ExecuteRequest` | src/nbla/synced_array.cpp:403-409 | One request writes its constant over exactly the node's cells |
| `SyncedArray.Family.CheckZeroingFilling` | src/nbla/synced_array.cpp:431-447 | Finds a pending request exactly if the node, a descendant or an ancestor has one |
| `SyncedArray.Family.CheckZeroingFillingDescendants` | src/nbla/synced_array.cpp:417-429 | Finds a pending request exactly if a living descendant has one |
| `SyncedArray.Family.ClearFlagsDescendants` | src/nbla/synced_array.cpp:449-456 | Quiets exactly the living descendants |
| `SyncedArray.Family.PropagateZeroingFlag` | src/nbla/synced_array.cpp:527-536 | Marks exactly the node, its descendants and its ancestors |
| `SyncedArray.Family.PropagateZeroingFlagDescendants` | src/nbla/synced_array.cpp:518-525 | Marks exactly the living descendants |
| `SyncedArray.Family.ClearAllArrayDescendants` | src/nbla/synced_array.cpp:491-509 | Trims exactly the living descendants, to their heads or to nothing |
| `SyncedArray.Family.CreateArrayDescendants` | src/nbla/synced_array.cpp:121-130 | Gives every living descendant without arrays its stretch of the root's memory |
| `SyncedArray.Family.CreateArrayFromParent` | src/nbla/synced_array.cpp:109-119 | Puts a view's array on the root's memory at the offset summed up to the root |
| `SyncedArray.ExecutedInPlace` | src/nbla/synced_array.cpp:399-415 | Executing a request that no ancestor's request hides changes no logical cell |
| `LazyCells.DeepestDecides` | src/nbla/synced_array.cpp:399-415 | Of the pending requests over a cell, one belongs to a node below all the others, and that one decides the cell |
| `LazyCells.RequestOverrides` | src/nbla/synced_array.cpp:246-300 | A new request on a node decides exactly the cells it covers |
| `LazyCells.RequestExecuted` | src/nbla/synced_array.cpp:399-415 | After the topmost request is executed, each of its cells is decided by a deeper request or by memory |
| `FamilyFacts.NoneOrAllAfterAnyRun` | src/nbla/synced_array.cpp:109-130 | After any run either no living node has an array, or all have their head array on the root's memory under a derived key at the summed offset; and exactly the requests are pending that the reference says |
| `FamilyFacts.ViewsApart` | src/nbla/synced_array.cpp:78-90 | Views lie inside their parents and living siblings share no cell |
| `FamilyFacts.CopiesAgree` | src/nbla/synced_array.cpp:353-389 | Every copy besides the head is at head and equals the conversion of its node's interval |
| `FamilyLimits.ViewInPlaceExactly` | src/nbla/synced_array.cpp:114-118 | A view's array lies on its own cells if and only if nothing above its parent is offset |
| `FamilyLimits.DeepViewMisplaced` | src/nbla/synced_array.cpp:117-117 | A concrete view three levels down whose array lies elsewhere |
| `FamilyLimits.DestroyKeepsCellsExactly` | src/nbla/synced_array.cpp:102-107 | Destroying a childless view keeps every cell if and only if it has no request, no cells, or a request that an ancestor's request repeats |
| `FamilyLimits.RepeatedExactly` | src/nbla/synced_array.cpp:102-107 | What the reference asks of a view destroyed with a request of its own - that the nearest pending request above it puts the same number there - is exactly the condition under which the cells are kept |
| `FamilyLimits.DestroyLosesFill` | src/nbla/synced_array.cpp:102-107 | A concrete filled view whose destruction loses the fill |
| `VectorLaws.LastWriteIsRead` | src/nbla/synced_array.cpp:146-232 | Along any run: what an accepted cast at type d was followed by writing to a node, and what nothing has overwritten since, a `get` at type d' returns converted from d to d', whatever views, reads and writes elsewhere came between |
| `VectorLaws.LastFillIsRead` | src/nbla/synced_array.cpp:246-300 | Along any run: a zero or fill of a node is read as that number, made an element of the type that the vector had or got, and converted to the type asked for |
| `VectorLaws.Reads` | src/nbla/synced_array.cpp:353-389 | One read of the reference, number for number |
| `VectorLaws.Writes` | src/nbla/synced_array.cpp:146-206 | One cast and write of the reference: when it is refused, and every number afterwards |
| `VectorLaws.Sets` | src/nbla/synced_array.cpp:246-300 | One zero or fill of the reference: every number afterwards |
| `EagerVector.ExecuteValid` | src/nbla/synced_array.cpp:72-107 | The reference keeps its views inside their parents and apart |
| `ExpansionMeaning.LoopValuesAreComputed` | src/nbla_utils/nnp_network_expander.cpp:127-337 | Whatever values solve a well-formed network with loops, one pass over the sorted expanded network computes from those that no layer writes: instance `v_id_i` ends up with the value of `v` in iteration i |
| `ExpansionMeaning.RunningSolvesTheLoops` | src/nbla_utils/nnp_network_expander.cpp:127-337 | What that pass computes, read through the instance names, solves the network with loops |
| `ExpansionMeaning.NothingElseSolvesTheLoops` | src/nbla_utils/nnp_network_expander.cpp:127-337 | No other values with the same givens do |
| `ExpansionMeaning.ExpansionPreservesMeaning` | src/nbla_utils/nnp_network_expander.cpp:127-323 | An assignment solves the fully expanded network if and only if what it says about the loops solves the network with loops |
| `ExpansionMeaning.UnfoldAllSolves` | src/nbla_utils/nnp_network_expander.cpp:127-323 | Every solution of the network with loops is one of the expanded network, seen through the loops |
| `ExpansionMeaning.FoldReadsInstances` | src/nbla_utils/nnp_network_expander.cpp:114-125 | Iteration i of a variable is the value found under its flat name |
| `LoopMeaning.StepMeaning` | src/nbla_utils/nnp_network_expander.cpp:127-322 | Expanding the first loop preserves meaning, in both directions |
| `LoopMeaning.FunctionMeaning` | src/nbla_utils/nnp_network_expander.cpp:226-320 | One function demands what the functions that replace it demand together |
| `LoopMeaning.MarkerHolds` | src/nbla_utils/nnp_network_expander.cpp:166-223 | RepeatStart, RepeatEnd and Delay hold by the way the tables resolve their outputs; a RepeatEnd hands out the last iteration |
| `LoopMeaning.SplitEquation` | src/nbla_utils/nnp_network_expander.cpp:239-257 | The slices of the Split that replaces a RecurrentInput are the inputs of the iterations |
| `LoopMeaning.StackEquation` | src/nbla_utils/nnp_network_expander.cpp:258-272 | The Stack that replaces a RecurrentOutput collects the outputs of the iterations |
| `LoopMeaning.CopyEquation` | src/nbla_utils/nnp_network_expander.cpp:274-319 | A copy of a body function demands in iteration i what the original does |
| `LoopValues.UnfoldSolves` | src/nbla_utils/nnp_network_expander.cpp:127-322 | Giving every instance its original's value turns a solution of the loop into one of the expanded network |
| `LoopValues.UnfoldThenFold` | src/nbla_utils/nnp_network_expander.cpp:127-322 | Unfolding and reading back through the loop gives the solution again |
| `LoopValues.OneInstance` | src/nbla_utils/nnp_network_expander.cpp:114-125 | If no name is given twice, an instance name tells its variable and its iteration |
| `LoopValues.SourceValue` | src/nbla_utils/nnp_network_expander.cpp:166-223 | In a solution, what a marker hands out has in every iteration the value of the variable and iteration that the tables resolve it to |
| `WellFormedness.FirstExpandable` | src/nbla_utils/nnp_network_expander.cpp:131-320 | Conditions on the network as it is given are enough for a round of expansion: a RepeatEnd stands outside its loop and reads from inside, a RepeatStart the other way round, and no marker asks by name for what a RepeatStart or Delay of its own loop hands out |
| `WellFormedness.StepWellFormed` | src/nbla_utils/nnp_network_expander.cpp:131-322 | A round of expansion leaves a network that meets the same conditions, so they need only be checked once, before the first |
| `WellFormedness.SameWriter` | src/nbla_utils/nnp_network_expander.cpp:239-319 | The functions that replace different functions, or the same one in different iterations, write different variables |
| `WellFormedness.CopyTraced` | src/nbla_utils/nnp_network_expander.cpp:166-223 | What a value may become by the time a loop is expanded - a parameter, the output of one of the loop's RepeatStarts or Delays, or of one of its RepeatEnds - can be told before expansion, and copies become no more |
| `WellFormedness.SourceInherits` | src/nbla_utils/nnp_network_expander.cpp:166-223 | What a table resolves a name to has no origins in later loops that the name has not |
| `Placement.Resolves` | src/nbla_utils/nnp_network_expander.cpp:166-223 | Every name the tables resolve something to is the instance of a variable that expansion keeps |
| `Placement.BodyInputIs` | src/nbla_utils/nnp_network_expander.cpp:282-301 | For what may be read inside the loop, the chain of lookups gives the instance of the iteration |
| `Placement.OutsideResolves` | src/nbla_utils/nnp_network_expander.cpp:309-318 | Outside the loop the output of a RepeatEnd is its input in the last iteration |
| `Placement.InstTells` | src/nbla_utils/nnp_network_expander.cpp:114-125 | An instance name tells its variable and its iteration |
| `EndReaders.EndReaderExactly` | src/nbla_utils/nnp_network_expander.cpp:294-295 | Inside the loop the output of its own RepeatEnd is resolved to the iteration at hand, outside to the last, and the two agree in the last iteration only |
| `EndReaders.ReadersMoved` | src/nbla_utils/nnp_network_expander.cpp:211-219 | A network whose loop reads its own RepeatEnd, in the body or as the update of a RepeatStart, expands like the one that reads in front of the RepeatEnd, and means what that means |
| `ChainedMarkers.CarriedExactly` | src/nbla_utils/nnp_network_expander.cpp:166-223 | The name under which a marker asks for iteration j of what it carries to the next iteration or collects behind the loop is that instance's name if and only if the variable is no parameter, varies with the loop, and no RepeatStart or Delay of the loop hands it out (but for a loop that runs once and starts the variable from itself); nothing is asked of what functions read |
| `ChainedMarkers.BodyExactly` | src/nbla_utils/nnp_network_expander.cpp:282-301 | The lookups of a body function give the instance of the iteration if and only if the name is a parameter, or varies with the loop and does not start over from behind the loop's RepeatEnd, or is what a RepeatEnd hands out and the iteration is the last: no other variable from outside the loop is found |
| `ChainedMarkers.WrittenExactly` | src/nbla_utils/nnp_network_expander.cpp:226-319 | After expansion an instance of a variable of the loop has a writer if and only if a function that expansion keeps writes the variable |
| `ChainedMarkers.KeptExactly` | src/nbla_utils/nnp_network_expander.cpp:226-272 | So, of what is written at all, the instances that a Stack or a next iteration reads are written if and only if no RepeatStart or Delay of the loop hands the variable out |
| `LostMeaning.ChainedUnwritten` | src/nbla_utils/nnp_network_expander.cpp:258-272 | A concrete network, in which everything else is in its place, whose RecurrentOutput reads a Delay: no layer of the expanded network writes what its Stack reads |
| `LostMeaning.ChainedMeaningLost` | python/src/nnabla/core/graph_def.py:684-698 | Values solve the expanded network that do not solve this network, whose Delay hands a value on as the Python expander's Identity does |
| `LostMeaning.OutsideUnknown` | src/nbla_utils/nnp_network_expander.cpp:282-301 | A concrete layer in a loop that reads a variable from outside: after expansion it reads a name that is not declared |
| `LostMeaning.OutsideMeaningLost` | python/src/nnabla/core/graph_def.py:665-673 | Values solve the expanded network that do not solve this network, in which the layer reads the variable itself, as in the Python expander |
| `ExpansionMeaning.ScheduleAssignsOnce` | src/nbla_utils/nnp_network_expander.cpp:325-337 | In the sorted, expanded network no variable is written twice |
| `ExpansionMeaning.UsedOriginal` | src/nbla_utils/nnp_network_expander.cpp:127-323 | Every name that the expanded layers use is the name of some variable in some iteration |
| `ExpansionNames.ExpandedNames` | src/nbla_utils/nnp_network_expander.cpp:274-281 | Every function of the expanded network can be told by its name, as the sort needs |
| `ExpansionNames.RecordsFit` | src/nbla_utils/nnp_network_expander.cpp:137-164 | The record of parameter names, which is never cleared, can be trusted before every round |
| `FreshNaming.FreshApart` | src/nbla_utils/nnp_network_expander.cpp:114-125 | However many loops there are and however often they run, names never meet in expansion if no variable is called what the instances of a variable of other loops start with, and nothing is cut off at the end of the name buffer |
| `FreshNaming.FullNameTells` | src/nbla_utils/nnp_network_expander.cpp:114-125 | A generated name that is not cut off tells the name and the iteration it was made from |
| `FreshNaming.FreshTogether` | src/nbla_utils/nnp_network_expander.cpp:114-125 | Nor do names that start with different letters |
| `FreshNaming.PlaceHolderExactly` | src/nbla_utils/nnp_network_expander.cpp:114-119 | The instances of a parameter have names of their own if and only if there is one, or the name holds the loop's place holder |
| `LoopExamples.NestedWellFormed` | src/nbla_utils/test/test_gen_loop_control_cases.py:30-330 | A network shaped like the nested loop test meets all the conditions: two loops, each fed back, read through RepeatEnds outside them, with a parameter per iteration |
| `LoopExamples.NestedNamedApart` | src/nbla_utils/test/test_gen_loop_control_cases.py:30-330 | and its functions' names stay apart |
| `RecurrentExample.RecurrentWellFormed` | src/nbla_utils/test/test_gen_loop_control_cases.py:1191-1405 | The recurrent delay test's network meets them too: its 17 variables, four of them parameters, its ten functions and its 28 iterations, under their own names |
| `RecurrentExample.RecurrentNamedApart` | src/nbla_utils/test/test_gen_loop_control_cases.py:1191-1405 | and its functions' names stay apart |
| `RecurrentExpansion.RecurrentExpanded` | src/nbla_utils/test/test_gen_loop_control_cases.py:1191-1405 | The recurrent delay test expanded, name by name: its input is split along axis 2 into 28 rows, its output stacked along axis 2 from 28 rows, and every row's Concatenate joins its own slice with what the row before handed on, the first with the initial value |
| `Unroll.RecordLookup` | src/nbla_utils/nnp_network_expander.cpp:285-291 | Looking an input up in the record of parameter names gives the instance the expansion means |
| `NetworkExpander.NetworkExpander.Execute` | src/nbla_utils/nnp_network_expander.cpp:325-337 | Takes the fatal exit exactly if the expanded network has a cycle, else returns a schedule: the functions of the expanded network, each once, each producer before each consumer |
| `NetworkExpander.NetworkExpander.SortFunctions` | src/nbla_utils/nnp_network_expander.cpp:106-112 | The depth-first sort is fatal exactly for cyclic graphs, else a permutation in topological order |
| `NetworkExpander.NetworkExpander.Visit` | src/nbla_utils/nnp_network_expander.cpp:81-104 | One visit finishes everything reachable, keeps the order, and is fatal only for a cycle |
| `NetworkExpander.NetworkExpander.ExpandRepeat` | src/nbla_utils/nnp_network_expander.cpp:127-323 | The recursion over the loops ends and returns the fully expanded network |
| `NetworkExpander.NetworkExpander.ExpandFirst` | src/nbla_utils/nnp_network_expander.cpp:131-320 | One round of loops over tables and functions builds the network with the first loop expanded |
| `NetworkExpander.NetworkExpander.ExpandVariablesOf` | src/nbla_utils/nnp_network_expander.cpp:137-164 | Variables and the record of parameter names after one round |
| `NetworkExpander.NetworkExpander.ExpandOneVariable` | src/nbla_utils/nnp_network_expander.cpp:137-164 | One instance per iteration of the loop, of the same kind and with one loop less to vary with, or the variable as it is |
| `NetworkExpander.NetworkExpander.ExpandOneFunction` | src/nbla_utils/nnp_network_expander.cpp:226-320 | The functions that replace one function, in fields: none for RepeatStart, RepeatEnd and Delay of the loop; a Split or a Stack along the marker's axis over the instances in order; one copy per iteration inside the loop and one outside, with kind, axes and payload kept |
| `NetworkExpander.NetworkExpander.LookUp` | src/nbla_utils/nnp_network_expander.cpp:282-301 | The chain of table lookups resolves an input of a body function |
| `NetworkExpander.NetworkExpander.FillDelays` | src/nbla_utils/nnp_network_expander.cpp:166-182 | The table of delays |
| `NetworkExpander.NetworkExpander.FillEnds` | src/nbla_utils/nnp_network_expander.cpp:184-196 | The table of loop results |
| `NetworkExpander.NetworkExpander.FillStarts` | src/nbla_utils/nnp_network_expander.cpp:198-223 | The table of loop starts |
| `Dag.OrderedIsAcyclic` | src/nbla_utils/nnp_network_expander.cpp:81-112 | What can be ordered has no cycle |
| `Dag.SameMembers` | src/nbla_utils/nnp_network_expander.cpp:106-112 | Lists without repetition and with the same members are permutations of each other |
| `FlatRun.RunMeets` | src/nbla_utils/nnp_network_expander.cpp:325-337 | One pass over an ordered network meets every layer's demand |
| `FlatRun.RunUnique` | src/nbla_utils/nnp_network_expander.cpp:325-337 | Whatever meets every demand from the same givens is what the pass computes |
| `FloatFormat.CorrectlyRoundedExactly` | include/nbla/float_bits.hpp:106-160 | Downconversion of a finite number is roundTiesToEven (IEEE 754-2008 sections 4.3.1 and 7.4) if and only if the number is not one that the flush or the early truncation of the subnormal path spoils |
| `FloatFormat.NormalRangeNearest` | include/nbla/float_bits.hpp:141-148 | In the narrow normal range the result is nearest, ties to even, carries into the next binade and into infinity included |
| `FloatFormat.OverflowNearest` | include/nbla/float_bits.hpp:131-134 | Above the narrow exponents everything rounds to infinity |
| `FloatFormat.UnderflowBound` | include/nbla/float_bits.hpp:136-159 | Below the normal range the error is under half a unit plus the bits cut off, and a flush loses less than a unit |
| `FloatFormat.SmallNearest` | include/nbla/float_bits.hpp:150-159 | Below the smallest normal, rounding the quotient is rounding to the nearest pattern |
| `FloatFormat.NearestUnique` | include/nbla/float_bits.hpp:83-92 | There is only one correctly rounded pattern |
| `FloatFormat.NumberMonotone` | include/nbla/float_bits.hpp:49-60 | Numbers grow with patterns |
| `FloatConversion.OverflowExactly` | include/nbla/float_bits.hpp:131-148 | A finite number becomes infinity exactly from half way between the largest finite number and the next on |
| `FloatConversion.SubnormalMisrounds` | include/nbla/float_bits.hpp:153-159 | A concrete float whose half is not the nearest one |
| `FloatConversion.NarrowMonotone` | include/nbla/float_bits.hpp:106-160 | Downconversion preserves the order of all patterns that are not NaNs, across all branches |
| `FloatConversion.NarrowKeepsSign` | include/nbla/float_bits.hpp:111-129 | It keeps the sign and gives a NaN exactly for a NaN |
| `FloatConversion.WideningExact` | include/nbla/float_bits.hpp:180-206 | Upconversion of a finite pattern denotes exactly the same number |
| `FloatConversion.WidenKeepsValue` | include/nbla/float_bits.hpp:164-207 | It keeps sign, class and signed value |
| `FloatConversion.RoundTrip` | include/nbla/float_bits.hpp:106-207 | Downconversion undoes upconversion for every pattern, NaN payloads included |
| `FloatConversion.WidenedNotMisrounded` | include/nbla/float_bits.hpp:106-207 | An upconverted pattern is never where downconversion misrounds |
| `FloatConversion.DetourLosslessExactly` | include/nbla/float_bits.hpp:164-164 | Handing the pattern back as a value of the wide type loses nothing for any pattern exactly if the wide exponent is no wider than the significand grew |
| `FloatConversion.KnownHalves` | include/nbla/float_bits.hpp:164-207 | Zero, one, the largest half, infinity and the smallest half, as patterns of both formats |
| `FloatConversion.HalfRoundTrip` | include/nbla/half.hpp:38-45 | All 65536 halves survive the conversion to float, through the float-valued return, and back |
| `FloatBits.DownconvertTo` | include/nbla/float_bits.hpp:106-160 | The bit manipulation computes the conversion of sign and magnitude |
| `FloatBits.UpconvertTo` | include/nbla/float_bits.hpp:164-207 | The bit manipulation computes the exact widening |
| `FloatBits.UpconvertSubnormal` | include/nbla/float_bits.hpp:186-199 | The loop ends after the doublings that normalize, with the matching exponent |
| `FloatBits.RoundTiesToEven` | include/nbla/float_bits.hpp:83-92 | Adding half a unit except to an even tie, and cutting off, rounds to nearest, ties to even |
| `FloatBits.Fields` | include/nbla/float_bits.hpp:64-67 | Masks and shifts take out the fields |
| `FloatBits.SignOf` | include/nbla/float_bits.hpp:68-72 | The sign as a narrow word |
| `FloatBits.SignFrom` | include/nbla/float_bits.hpp:73-78 | The sign as a wide word |
| `FloatBits.FloatToHalfBits` | include/nbla/half.hpp:29-36 | Float to half |
| `FloatBits.HalfBitsToFloat` | include/nbla/half.hpp:38-45 | Half to float, and that converting back gives the half again |
| `Bits.TruncateThenRound` | include/nbla/float_bits.hpp:153-159 | Rounding after truncating differs from rounding once exactly for an even tie made by cutting off something |
| `Bits.AddHalfRounds` | include/nbla/float_bits.hpp:83-92 | The rounding trick is rounding to nearest, ties to even |
| `RingBuffer.ReadBatches` | src/nbla_utils/nnp_impl_dataset_npy.cpp:383-465 | The i-th sequential read returns the i-th batch-sized piece of the endless stream |
| `RingBuffer.RingBuffer.constructor` | src/nbla_utils/nnp_impl_dataset_npy.cpp:383-411 | A new buffer holds the start of the stream |
| `RingBuffer.RingBuffer.FillBuffer` | src/nbla_utils/nnp_impl_dataset_npy.cpp:415-438 | Appends whole files, in order and cyclically, while one fits; the prefix stays a piece of the stream |
| `RingBuffer.RingBuffer.LoadFile` | src/nbla_utils/nnp_impl_dataset_npy.cpp:422-433 | Copies one file with its rows in order |
| `RingBuffer.RingBuffer.CopyRow` | src/nbla_utils/nnp_impl_dataset_npy.cpp:426-430 | Copies one row to its place |
| `RingBuffer.RingBuffer.FillUp` | src/nbla_utils/nnp_impl_dataset_npy.cpp:440-451 | Drops what was read and refills; nothing unread is lost |
| `RingBuffer.RingBuffer.ReadBatchData` | src/nbla_utils/nnp_impl_dataset_npy.cpp:453-465 | Hands out the next batch, from inside the valid prefix |
| `BufferLevel.FitsExactly` | src/nbla_utils/nnp_impl_dataset_npy.cpp:415-465 | All reads lie inside the data if and only if a batch is at most four files, or exceeds four by a divisor of the fifth |
| `BufferLevel.LevelBounds` | src/nbla_utils/nnp_impl_dataset_npy.cpp:440-451 | After every refill more than four of the five file slots are full |
| `CyclicStream.RowInStream` | src/nbla_utils/nnp_impl_dataset_npy.cpp:424-433 | Where each byte of the stream comes from |
| `CyclicStream.BatchRow` | src/nbla_utils/nnp_impl_dataset_npy.cpp:453-465 | A batch is a run of stream rows |
| `CyclicStream.BatchByte` | src/nbla_utils/nnp_impl_dataset_npy.cpp:422-465 | Every byte of a batch, found in the cache files |
| `CyclicStream.PassVisitsEachRowOnce` | src/nbla_utils/nnp_impl_dataset_npy.cpp:415-435 | One pass visits every row of every file exactly once |
| `DatasetCache.NpyCache.constructor` | src/nbla_utils/nnp_impl_dataset_npy.cpp:471-505 | One ring buffer per variable, all over the same files and row order |
| `DatasetCache.NpyCache.GetBatchData` | src/nbla_utils/nnp_impl_dataset_npy.cpp:507-519 | A batch is exactly batch size times row size bytes for every variable, each given by its file, row and place; row j is the same row of the same file for all variables |
| `BatchQueue.StepKeepsInv` | src/nbla_utils/data_iterator_npy.cpp:51-96 | Every step of every thread keeps delivered, queued and in-hand batches equal to those fetched, the bound, and mutual exclusion |
| `BatchQueue.DeliversInOrder` | src/nbla_utils/data_iterator_npy.cpp:51-96 | In every interleaving the k-th batch popped is batch k, and the worker is at most a full queue and one batch ahead |
| `BatchQueue.DeliversStreamRows` | src/nbla_utils/data_iterator_npy.cpp:51-96 | End to end: row j of the k-th batch delivered is stream row k * batch + j, for every variable |
| `BatchQueue.EveryBatchDelivered` | src/nbla_utils/data_iterator_npy.cpp:51-96 | In every endless run in which the worker and some consumer step again and again, every batch is delivered, whatever the other threads do |
| `BatchQueue.FairRun` | src/nbla_utils/data_iterator_npy.cpp:51-96 | There are such runs, for any batches and any number of consumers: worker and consumer in turn, the states given outright |
| `BatchQueue.NextBatchWithinReach` | src/nbla_utils/data_iterator_npy.cpp:51-96 | From every reachable state some schedule delivers the next batch within seven steps |
| `MemoryIterator.Drain` | src/nbla_utils/data_iterator.cpp:32-172 | For any number of calls, all streams deliver the same rows, and every run of n rows is a permutation of the data set |
| `MemoryIterator.MemoryIterator.constructor` | src/nbla_utils/data_iterator.cpp:32-71 | The streams are the cache blocks one after another, number for number, with images of unsigned bytes divided by 255 |
| `MemoryIterator.LoadStream` | src/nbla_utils/data_iterator.cpp:58-67 | Number k of block j lies j blocks and k numbers in, divided by 255 exactly if the stream holds unsigned bytes in more than two dimensions and normalization is not switched off, else as it was |
| `MemoryIterator.ImagesInUnitInterval` | src/nbla_utils/data_iterator.cpp:51-66 | Normalized bytes lie in the unit interval |
| `MemoryIterator.MemoryIterator.Next` | src/nbla_utils/data_iterator.cpp:119-172 | A batch is the rest of one permutation and, after reshuffling by the given one, the start of the next, row by row; all streams deliver the same rows |
| `MemoryIterator.MemoryIterator.Deliver` | src/nbla_utils/data_iterator.cpp:133-148 | Delivers the next rows of the permutation in use |
| `MemoryIterator.MemoryIterator.StartOver` | src/nbla_utils/data_iterator.cpp:150-154 | Starts the next permutation at the end of one |
| `MemoryIterator.MemoryIterator.ShuffleDataset` | src/nbla_utils/data_iterator.cpp:81-105 | Rearranges all streams by the same permutation |
| `MemoryIterator.MemoryIterator.ShuffleStream` | src/nbla_utils/data_iterator.cpp:89-104 | Rearranges one stream's rows in place by way of a copy |
| `Epochs.InsideExactly` | src/nbla_utils/data_iterator.cpp:133-169 | All calls read rows that exist if and only if a batch is no larger than the data set |
| `Epochs.NextEpoch` | src/nbla_utils/data_iterator.cpp:150-154 | A finished permutation becomes one epoch of the log |
| `Shapes.GetContiguousStrides` | include/nbla/common.hpp:62-71 | The downward loop computes, for each dimension, the product of those after it |
| `Shapes.PositionInside` | include/nbla/common.hpp:62-71 | Strides take every index to its own position inside the array |
| `Shapes.IndexInside` | include/nbla/common.hpp:62-71 | and every position is reached |
| `Shapes.NarrowedInside` | src/nbla/nd_array.cpp:145-149 | The narrowed part lies inside the whole |
| `Shapes.NarrowedElements` | src/nbla/nd_array.cpp:145-153 | It is exactly the elements with a first index in range, found by the part's own strides |
| `Shapes.NarrowedDisjoint` | src/nbla/synced_array.cpp:78-90 | Two parts fail the overlap check exactly if rows have elements and the parts share a row or one is empty and strictly inside the other |
| `ReferenceRuns.Run` | src/nbla/synced_array.cpp:551-563 | After any run of commands, asking any array gives the number of references users hold, directly or through variables, to its family; what they hold is what the commands took and dropped, and the registry is the last of the states the commands lead through |
| `ReferenceRuns.Perform` | src/nbla/variable.cpp:26-112 | Every command leaves exactly the state it should - variables, NdArrays with shapes, strides and the arrays they lie on, and arrays, new ones included; only the two counting commands change what users hold. Counts of arrays are left to the invariant, which determines them (`ArrayCounts.CountsDetermined`) |
| `ReferenceRuns.HistoryBooked` | src/nbla/variable.cpp:26-112 | Along any history, what users hold of a variable or an NdArray is the sum of what was taken and dropped |
| `ReferenceRuns.DataRefuses` | src/nbla/variable.cpp:74-93 | A reachable variable on a narrowed NdArray that refuses a reshape with its shape changed already |
| `ReferenceRuns.GradRefuses` | src/nbla/variable.cpp:74-93 | A reachable variable with a narrowed gradient that refuses when shape and data have been changed already |
| `ReferenceCounts.Registry.GetCount` | src/nbla/synced_array.cpp:551-556 | The root's count is the direct references plus those of the variables on the family's NdArrays |
| `ReferenceCounts.Registry.UpdateArray` | src/nbla/synced_array.cpp:558-563 | A change is passed on to every array above |
| `ReferenceCounts.Registry.UpdateNdArray` | src/nbla/nd_array.cpp:25-28 | An NdArray's change reaches its array |
| `ReferenceCounts.Registry.UpdateVariable` | src/nbla/variable.cpp:26-29 | A variable's change reaches its data |
| `ReferenceCounts.Registry.SetArray` | src/nbla/nd_array.cpp:30-42 | The new array takes over the count and the old one loses it; sizes must match |
| `ReferenceCounts.Registry.SetData` | src/nbla/variable.cpp:31-43 | The new data takes over the count and the old one loses it; shapes must match |
| `ReferenceCounts.Registry.SetGrad` | src/nbla/variable.cpp:49-52 | Gradients are not counted; shapes must match |
| `ReferenceCounts.Registry.NdReshape` | src/nbla/nd_array.cpp:68-87 | Succeeds exactly for the same size, or by force on an array that is not narrowed. With the size the array stays, else a new array of its own replaces it; nothing else changes |
| `ReferenceCounts.Registry.NdView` | src/nbla/nd_array.cpp:89-91 | Another shape of the same size on the same array |
| `ReferenceCounts.Registry.Narrow` | src/nbla/nd_array.cpp:128-154 | Succeeds exactly for rows in range that pass the overlap check, and places the child inside its parent |
| `ReferenceCounts.Registry.Reshape` | src/nbla/variable.cpp:74-93 | Succeeds exactly if data and gradient can follow; the variable keeps its new shape even when they refuse, and the data keeps its when the gradient does. Each stays on its array unless its size changes, and then gets a new one of its own; nothing else changes |
| `ReferenceCounts.Registry.View` | src/nbla/variable.cpp:95-100 | A second variable on the same data and gradient, exactly if both still have the variable's shape; else a dead one, and in either case two NdArrays on two arrays that nothing holds |
| `ReferenceCounts.Registry.ViewShaped` | src/nbla/variable.cpp:102-112 | A variable in another shape, on views of data and gradient that lie on their arrays, exactly if both have the size; else what had been made by then, held by nothing |
| `ReferenceCounts.Registry.NewVariable` | src/nbla/variable.cpp:60-65 | A variable on new data and gradient |
| `ReferenceCounts.Registry.NewNdArray` | src/nbla/nd_array.cpp:54-57 | An NdArray on a new array |
| `ReferenceCounts.Registry.DestroyVariable` | src/nbla/variable.cpp:45-47 | The data loses the variable's count |
| `ReferenceCounts.Registry.DestroyNdArray` | src/nbla/nd_array.cpp:44-46 | The array loses the NdArray's count |
| `ReferenceCounts.Registry.DestroyArray` | src/nbla/synced_array.cpp:102-107 | An array that nothing holds has count zero, so its parent need not be told |
| `ArrayCounts.RootCountsFamily` | src/nbla/synced_array.cpp:551-563 | A root's count is that of all holders anywhere in its family |
| `ArrayCounts.CountsDetermined` | src/nbla/synced_array.cpp:551-563 | Who holds what determines the counts of all arrays |
| `ArrayCounts.BumpKeepsBalance` | src/nbla/synced_array.cpp:558-563 | A change passed on to the root keeps every array balanced |
| `ReferenceCounts.UsersOfFamily` | src/nbla/synced_array.cpp:551-556 | A family's count is what users hold of its NdArrays directly and through variables |

## Left out

- EagerVector.Allowed: what callers of a family must respect, because the code does. Narrowing only where the offset is kept, destroying a view with cells only when it has no pending request or the nearest one above it puts the same number there, and writing only directly after the `cast` that returned the handle.
- SyncedArray.Family: nodes are indices into one arena instead of objects with pointers, so `weak_ptr` expiry and `shared_from_this` are not modelled; `live` says which nodes exist.
- SyncedArray.Family.Zeroing: one direction only, as in the code: an all-zero node need not report it.
- Public `clear` on a root with views, `copy_from`, `modification_count_`, `clear_called_`, callbacks, asynchronous events and allocators are not modelled; array class and allocator group are one place.
- Element values are real numbers: rounding inside a conversion, and the cast of a fill value to float, belong to the uninterpreted conversion.
- ReferenceCounts.Registry: again an arena; when the last holder lets go, destruction is a command of its own that may come later. The counts and the cached contents are separate models of the same tree.
- FloatFormat.Admissible: bounds the growth of the significand by 29, as the shift of an int in `round_ties_to_even` does, so double to half is not covered.
- FloatConversion.Detour: the wide type is taken to have the exponent range for any integer of its own width, as float and double have.
- FloatBits: words are natural numbers; wrap-around is written out where a word is stored. Half arithmetic and the other conversions of `Half` are not modelled.
- WellFormedness.WellFormed: asks that names stay distinct in every round (`FreshNames`), that every function reads variables of just the loops it runs in or parameters of some of them, that no marker carries or collects what a RepeatStart or Delay of its own loop hands out, directly or by way of markers of loops expanded before, and that values from behind a loop do not start its Delays or RecurrentInputs. The expander itself checks none of this; where it is violated it refers to variables that do not exist. `ChainedMarkers` gives the exact condition name by name, and `LostMeaning` two such networks.
- Unroll.OldName: the place holder of a parameter name is replaced literally; an identifier with regular-expression characters is not modelled.
- ExpansionNames.NoNameReused: two declarations of one parameter, and a variable that takes a name which a parameter has lost to expansion, are not modelled.
- WellFormedness.FreshNames: a parameter that varies with a loop of several iterations but lacks the loop's place holder gets one name for all of them, and is not covered; the exact condition is `FreshNaming.PlaceHolderExactly`.
- EndReaders.ReadersMoved: speaks of the loop expanded first; a body that reads the RepeatEnd of a loop expanded later is to be rewired in the network that the round before leaves.
- ReferenceRuns.Effect: says of counts of arrays only that they may change; the invariant, which holds before and after, determines them.
- NetworkExpander.NetworkExpander.Execute: the process exit on a cycle is a returned flag, and nothing is said about the state after it. Messages that expansion only copies are one string.
- RingBuffer.RingBuffer: takes each cache file as a given sequence of bytes, all of one size; reading and parsing files is not modelled, and `read_batch_data` is called in sequence, so the reset for a wrapped batch index is entered only by the first read.
- BatchQueue: the exit request and the 32-bit wrap of the batch index are not modelled. A timeout is a wake-up at any time.
- MemoryIterator.MemoryIterator: cache blocks are of one size, as the copying loop needs; the random permutation is a parameter; batches are returned as sequences and numbers are real.
- Computation graphs, solvers, functions, initializers, file formats, the command line and code generation are not modelled.
