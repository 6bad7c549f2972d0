# Verified model of PyGObject's call machinery

PyGObject turns introspected C signatures into Python calls. This project models the parts of it that are algorithms
over unbounded inputs and proves what they promise. Where the C or Python code changes state step by step, the model
is a method or a class proved against a function or a closed form; where it computes a value, the model is a function.
`dafny verify dfyconfig.toml` checks the whole project.

| files | what they model |
|---|---|
| `MroCore.dfy`, `MroMerge.dfy`, `MroSuccess.dfy`, `MroPlain.dfy`, `MroHierarchy.dfy`, `MroInterfaces.dfy`, `MroOrder.dfy`, `MroLoop.dfy` | the class precedence list of `gi/types.py`: C3, weakened for interfaces, with its lists consumed in place |
| `Signature.dfy`, `CacheTable.dfy`, `CacheProof.dfy`, `CallableCache.dfy`, `CacheFacts.dfy` | the callable cache: one pass over a signature that hides array lengths, callback user data and destroy-notifies, renumbers Python positions in place and keeps four counters |
| `CInts.dfy`, `InvokeIn.dfy`, `LengthCells.dfy`, `Kwargs.dfy`, `Invoke.dfy`, `InvokeOut.dfy` | the invoker: keyword merging, the in stage with its two cursors, the cleanup drivers, and the result builder |
| `Argument.dfy`, `ArgumentObject.dfy`, `Ownership.dfy`, `OwnershipResults.dfy`, `Failures.dfy`, `RoundTrip.dfy`, `Normal.dfy` | type-directed conversion of nested arrays, lists and tables on a heap of block ids; who owns which block; which conversions fail and what they leave; what comes back, and what comes back unchanged |
| `StringArrays.dfy`, `StringArrayResults.dfy`, `ArrayRuns.dfy` | in-arrays of strings: the marshaller with its error path, the cleanup that recomputes the length, and what it finds in the length argument in the course of a call |
| `Packing.dfy` | lists and tables of scalars packed into pointers |
| `ClosureLife.dfy`, `ClosureProof.dfy`, `ClosureRuns.dfy`, `ClosureResults.dfy`, `ClosureRuntime.dfy` | the lifetime of native closures, with the list of async closures freed later |
| `CallbackArgs.dfy` | the two argument passes of a callback into Python |
| `TreeWalk.dfy` | the deque-driven depth-first walk of a tree model |

## How the model reads the source

**Class precedence.** A class is an identity with its tuple of bases; the merge compares lists by contents, as Python does, although
it means the list object it just emptied. `None` stands for the `TypeError`. The weakening admits a candidate in
another list's tail when GInterface is one of its direct bases, so interfaces can repeat in the result
(`InterfaceRepeats` gives the hierarchy); ordinary classes still obey C3. `NeverWeakens` says that no round takes a
candidate from another list's tail, and `MroNoDuplicateIff` that exactly then no class repeats, and exactly then the
result is that of plain C3.

**Callable cache.** Slot 0 of a method or vfunc is the instance; -1 is the return value. `Callable.WellFormed` in
`Signature.dfy` spells out what the generator relies on without checking: a length runs in the direction of its array
and is a plain argument without children of its own; user-data and destroy-notify arguments go in, come after their
callback, and are no array's length; an out or inout length serves a single array, because
`gi/pygi-cache.c:520-521` counts it again for every array; GErrors only come out of C; a self-closure is nobody's child;
containers of callbacks do not go in, because their items have no argument info to read the scope from. Whether the
class of an interface can be imported is part of the signature; that of the instance can be.
One more condition is needed only where the invoker uses the cell a child recorded: `InvokeIn.CellsAgree` says that no
out-only argument precedes a length that itself precedes its array. Such a length keeps its position as its cell
(`gi/pygi-cache.c:1208`); `ChildCellAgrees` shows that this is exactly when the cell is wrong, and
`RecordedCellCanBeWrong` gives a signature for which it is.

**Invoker.** A GIArgument is a 64-bit little-endian cell that starts as zero, or a pointer to an out value. What the
type's own marshaller makes of a value is a parameter (`Env`), fixed for one invocation, so a refusal that looks at
another argument, such as that of None for a callback whose user data is not None
(`gi/pygi-marshal-from-py.c:1452-1457`), is one of the values it can take. An inout length whose cursor has passed is written
through a `gint *`, so it is checked against nothing; `LengthReceived` states exactly which lengths C then receives.

**Conversion and ownership.** `Heap` has the next unused block id, the allocated ids, and how often each was freed.
`Conv` follows `_pygi_argument_from_object`, `Freed` lists what `_pygi_argument_release` frees in direction IN, and
`ToObject` follows `_pygi_argument_to_object`; `ArgumentObject.Allocator` runs the same three with the source's loops.
A table compares strings by text and everything else by pointer value, so two keys can clash: inserting the second one
displaces a value, or loses a key, that owns blocks. The comments beside the table's release do not mention
this; `Clean` is the condition on the Python object under which it does not happen, and `ConvertThenRelease` proves
that convert-then-release restores the heap exactly then. `Undefined` marks the two places where the source follows a
pointer of the wrong type: a table value that fails (`gi/pygi-argument.c:1472`, which releases the key with the table's
type) and a null string as a key. Which objects come to that, and which fail cleanly, is said about the objects alone:
`Accepts`, `Wild` and `LosesNothing` in `Failures.dfy` look for the first item a container refuses, which is the last one
of a list, since lists are built from the back.

**String arrays.** The cleanup of a C array without fixed size or terminator takes its length from the cell
`state->args` names for the length argument at that moment (`gi/pygi-marshal-cleanup.c:316-318`), and a `guint` holds
it. `Cleanup` gets that cell as it is then, or none while the pointer is NULL; reading through NULL and running past the
last item are outcomes of their own. Neither is impossible: arrays may share a length, which the last one of them
overwrites (`SharedLengthMiscounts`), and when an argument is refused before the cursor has reached the length, the
arrays before it are cleaned up without one (`LengthBehindIsNull`). `CleanedInCall` says exactly when each happens.

**Closures.** The state is the set of allocated closures, the list of finished async ones, and the stack of invocations
and callbacks. `CanHappen` says which step can come next at all, given where the code is, and `Allowed` adds the rules
that C code has to obey. It says only what C may do, never what is allocated: a call-scoped closure is called during its
invocation, an async one at most once, a notified one before its destroy-notify, which fires at most once and not while
the closure runs. That every such call finds an allocated closure is then a result. Between the moment an async closure
drops its Python data and the moment it joins the list, arbitrary Python code may run, so these are two steps.

**Callbacks.** The in pass skips the user-data and destroy-notify arguments of the last callback argument it read; the
out pass skips nothing. The two agree exactly when no skipped argument goes out. A callback that goes in is wrapped with the pointer of its destroy-notify, if it has one, in place of
its user data, because `gi/pygi-closure.c:379-383` assigns the same variable twice; the model does the same.

## Model

| member | source | states |
|---|---|---|
| MroSuccess.MergeSucceedsIff | gi/types.py:322-341 | the merge loop returns if and only if some strict linear order of the non-interface classes makes every input list, interfaces dropped, increasing |
| MroPlain.MergeSucceedsIffErasedC3 | gi/types.py:322-341 | the merge returns exactly when plain C3 succeeds on the same lists with the interfaces erased |
| MroPlain.MergeIsC3 | gi/types.py:312-343 | without interfaces the merge is plain C3, in result and in rejection |
| MroMerge.MergeKeepsLists | gi/types.py:335-341 | every merged list is a subsequence of the result |
| MroMerge.MergeAddsNothing | gi/types.py:335-341 | every element of the result comes from some merged list |
| MroMerge.MergePlainOnce | gi/types.py:325-335 | a class that is not an interface occurs once in the result |
| MroCore.CandidateIsFirst | gi/types.py:323-331 | the class a round takes is the first acceptable head: no list before it has one |
| MroInterfaces.NoDuplicateIff | gi/types.py:322-343 | a merge that returns names no class twice if and only if no round takes a head that sits in some tail |
| MroInterfaces.PlainC3Iff | gi/types.py:322-343 | a merge that returns is the result of plain C3 under exactly the same condition, interfaces included |
| MroInterfaces.MroNoDuplicateIff | gi/types.py:316-343 | the mro of a class is free of duplicates, and is what C3 makes of its bases' mros, exactly when its own merge never uses the weakening |
| MroInterfaces.InterfaceRepeats | gi/types.py:326-341 | for an interface, an ordinary class derived from it and a class with these two as bases, in that order, the mro names the interface twice |
| MroCore.StripShrinks | gi/types.py:337-341 | removing a head makes the remaining lists strictly shorter in total |
| MroHierarchy.MroElements | gi/types.py:316-343 | the elements of a computed mro are exactly the reflexive-transitive ancestors of the class |
| MroHierarchy.MroShape | gi/types.py:317-343 | the mro starts with the class, keeps every base's mro and the base order as subsequences, and lists each ordinary class once |
| MroOrder.MergeInOrder | gi/types.py:322-341 | at every point of such a merge: lists with nothing in common but an ordinary last class are worked off one after the other, and that class comes last, once |
| MroOrder.MroOneAfterTheOther | gi/types.py:316-343 | when the bases' mros share nothing, or just one ordinary class at their ends, the mro is the class, then these mros in the order of the bases, then the shared class once |
| MroHierarchy.MroSucceedsIff | gi/types.py:319-333 | `mro(C)` returns exactly when it does for every base and the lists admit a linear order |
| MroHierarchy.MroPropagates | gi/types.py:319-320 | a base without an mro leaves the class without one |
| MroLoop.RemoveFirst | gi/types.py:341 | `list.remove` drops the first list with equal contents |
| MroLoop.DropEmptied | gi/types.py:340-341 | although it compares contents, `remove` drops the very list just emptied |
| MroLoop.RemoveCandidate | gi/types.py:337-341 | deleting the candidate from every head over a snapshot leaves exactly the stripped, non-empty lists |
| MroLoop.MergeLoop | gi/types.py:322-343 | the in-place loop computes the merge, finds no empty list at its head, and terminates |
| MroLoop.ComputeMro | gi/types.py:309-343 | the recursive function with fresh list objects computes the specified mro |
| CacheProof.StartKeepsInv | gi/pygi-cache.c:1262-1322 | the table after the return value and the instance satisfies the invariant, or the return type was refused |
| CacheProof.StepKeepsInv | gi/pygi-cache.c:1325-1439 | one round of the generator keeps the invariant: every slot's role, direction, Python index, cell and name, and the four counters |
| CacheProof.RunInv | gi/pygi-cache.c:1253-1450 | for every well-formed signature generation fails exactly when the type of some slot that its owner does not fill has, at any depth, a part that is an interface without a class or a callback coming out of C, and otherwise builds the table the signature determines |
| Signature.CachedIff | gi/pygi-cache.c:124-233 | `_arg_cache_new` makes a cache for a type if and only if no part of it, at any depth, is an interface whose class cannot be imported, nor a callback when it comes out |
| Signature.ArgumentSlots | gi/pygi-cache.c:1322-1379 | argument g and its length, user data and destroy-notify sit one slot further behind an instance, and directions are those of the Python implementation in a callback |
| CacheFacts.ArgumentName | gi/pygi-cache.c:1381-1434 | an argument has its name exactly when no array or callback before it filled its slot |
| CallableCacheObject.CallableCache.FromArraySetup | gi/pygi-cache.c:463-502 | hides the length of a from-Python array, to be renumbered when it came first |
| CallableCacheObject.CallableCache.ToArraySetup | gi/pygi-cache.c:505-543 | hides the length of a to-Python array, counts it when it came first, and takes it off the out list |
| CallableCacheObject.CallableCache.ArraySetup | gi/pygi-cache.c:1061-1114 | the renumbering loop decrements the Python index of every slot after the length up to the first empty one |
| CallableCacheObject.CallableCache.CallbackSetup | gi/pygi-cache.c:664-684 | hides the destroy-notify entirely and the user data as a child with a Python argument |
| CallableCacheObject.CallableCache.ReachChild | gi/pygi-cache.c:1381-1408 | a slot filled ahead of time takes its Python index and cell from the counters |
| CallableCacheObject.CallableCache.ReachParent | gi/pygi-cache.c:1403-1439 | a new slot takes its index, joins the out list and the counters, or is refused |
| CallableCacheObject.CallableCache.CacheArgument | gi/pygi-cache.c:1325-1439 | the loop body is the specified step |
| CallableCacheObject.CallableCache.GenerateNames | gi/pygi-cache.c:1217-1249 | prepending and reversing gives the names of the visible slots in order |
| CallableCacheObject.CallableCache.Generate | gi/pygi-cache.c:1253-1450 | the whole pass succeeds exactly when every slot its owner does not fill has a type without unusable parts, and leaves the table and names the signature determines |
| CacheFacts.PyIndexBijection | gi/pygi-cache.c:1094-1113 | the Python index is a strictly increasing bijection from the slots that take a Python argument onto 0..n_py_args-1, after every renumbering |
| CacheFacts.TakesPyByMeta | gi/pygi-cache.c:1381-1413 | these slots are the entering parents and the children with a Python argument |
| CacheFacts.NamesFollowIndices | gi/pygi-cache.c:1217-1249 | there is one name per Python argument, and the k-th belongs to the slot with index k |
| CacheFacts.OutListMatchesCounters | gi/pygi-cache.c:1393-1434 | n_to_py_args minus n_to_py_child_args is the length of the out list, which holds the unhidden out slots in declaration order |
| CacheFacts.ChildCellAgrees | gi/pygi-cache.c:1381-1396 | the cell a child recorded is the one its position implies exactly when it follows its owner or no out-only argument precedes it |
| CacheFacts.RecordedCellCanBeWrong | gi/pygi-cache.c:1203-1211 | a well-formed signature, an out-only argument before a length before its array, is generated with a cell the invoker does not use for that length |
| LengthCells.LateLengthIsLost | gi/pygi-marshal-from-py.c:1077-1102 | on that signature C receives zero for the length of every sequence passed, and the array itself in full |
| CInts.StoreLoad | gi/pygi-argument.c:919-966 | an integer survives a cell exactly when its type holds it, whatever the cell held |
| CInts.StoreThroughGint | gi/pygi-marshal-from-py.c:1082-1094 | a length written through a `gint *` reads back exactly when it fits its own type and 32 bits |
| CInts.PointerSurvives | gi/pygi-argument.c:76-133 | an integer of at most 32 bits survives a pointer |
| InvokeIn.AdvanceOk | gi/pygi-invoke.c:425-500 | each round's cursors move to the cells the closed form names |
| InvokeIn.MarshalOk | gi/pygi-invoke.c:502-527 | marshalling a slot fills its own cell and its children's cells and nothing else, and fails exactly when its value is refused |
| InvokeIn.InStageResult | gi/pygi-invoke.c:405-531 | after the in stage both cursors are exactly at n_from_py_args and n_to_py_args, every argument C receives is its own value, and every child holds what its last owner left |
| InvokeIn.PointersApart | gi/pygi-invoke.c:425-500 | after the in stage each pointer in `state->args` leads to what C receives for its own argument, to its zeroed out value, or to the out value C finds through the in cell, and no two lead to the same place |
| InvokeIn.LengthReceived | gi/pygi-marshal-from-py.c:1077-1102 | the length C receives, before or after its array, in or inout, is the number of items, exactly when it fits |
| InvokeIn.LengthOfNone | gi/pygi-marshal-from-py.c:918-921 | C receives zero for a length all of whose marshalled arrays were passed None, in or inout |
| LengthCells.LengthSeen | gi/pygi-invoke.c:425-500 | at any moment of the in stage the pointer of a going-in length is NULL exactly until the cursor passes it, and then points at the count of the last sequence passed to any array with that length |
| Kwargs.AllExpected | gi/pygi-invoke.c:98-133 | accepts the keywords exactly when every key is a name |
| Kwargs.Combine | gi/pygi-invoke.c:151-245 | succeeds exactly when positional arguments fill a prefix and keywords the rest, and names the error otherwise |
| Kwargs.AcceptsIffKeysAreTheRest | gi/pygi-invoke.c:151-245 | with distinct names, the keys must be exactly the names left over |
| InvokeOut.NamedValuesReachSlots | gi/pygi-invoke.c:412-481 | merged arguments are as many as the cache counts, so the later checks cannot fire, and each slot finds the value passed under its name |
| InvokeOut.NamedValueReachesC | gi/pygi-invoke.c:151-531 | C receives for a named parent argument the marshalled value passed under that name |
| InvokeOut.UserDataReachesClosure | gi/pygi-marshal-from-py.c:1426-1510 | C receives in the user-data argument the closure of its last callback that is not None, and that closure holds the value passed by position or under the user data's own name |
| InvokeOut.DestroyReachesC | gi/pygi-marshal-from-py.c:1426-1510 | C receives in the destroy-notify argument that of its last callback that is not None |
| InvokeOut.NoClosureForNone | gi/pygi-marshal-from-py.c:1459-1462 | user data and destroy-notify of callbacks that were all None are NULL |
| InvokeOut.ArraysGotSequences | gi/pygi-marshal-from-py.c:918-932 | an array argument that was accepted was None or a sequence, whose length fits its type unless it goes through a pointer |
| InvokeOut.InstanceComesFirst | gi/pygi-invoke.c:412-447 | the instance of a method or vfunc is the first Python argument and the first that C receives |
| Invoke.FailLogOwnOnce | gi/pygi-marshal-cleanup.c:151-180 | after a failure each cleanup runs exactly once on the going-in slots with data before the failing one, and on no others, with its own value, as processed for all but the one just before it |
| Invoke.SuccessLogOwnOnce | gi/pygi-marshal-cleanup.c:89-111 | after a complete in stage each slot with data is cleaned exactly once, on its own value |
| Invoke.InvokeState.CleanupParameterFail | gi/pygi-marshal-cleanup.c:151-180 | the driver's loop produces exactly the failure log |
| Invoke.InvokeState.CleanupMarshalSuccess | gi/pygi-marshal-cleanup.c:89-111 | the driver's loop produces exactly the success log |
| Invoke.InvokeState.AdvanceSlot | gi/pygi-invoke.c:429-500 | the three directions move the cursors as specified |
| Invoke.InvokeState.MarshalSlot | gi/pygi-invoke.c:502-527 | one marshaller call, with the pointer it keeps for its cleanup |
| Invoke.InvokeState.MarshalInArgs | gi/pygi-invoke.c:405-531 | the in stage stops at the first slot it refuses, having run one driver, or completes with the closed form |
| Invoke.InvokeState.InvokeCallable | gi/pygi-invoke.c:29-96 | the call succeeds exactly when it was made and set no GError; each error exit runs the success driver once, and the good exit runs none |
| Invoke.InvokeState.InvokeC | gi/pygi-invoke.c:645-673 | on every exit after a complete in stage, the three of the call included, the success driver has run exactly once; on every exit before it at most one failure driver has |
| InvokeOut.BuildResult | gi/pygi-invoke.c:534-643 | fails exactly when a constructor returned NULL or a conversion fails; else the return value, unless skipped or void, comes first and behind it each visible out in its place; one object is not wrapped; a skipped return value is cleaned exactly when it is transferred in full and its type has a cleanup |
| InvokeOut.BuildTuple | gi/pygi-invoke.c:611-641 | the tuple loop converts exactly the visible outs, or fails with the first that fails |
| InvokeOut.OutsAt | gi/pygi-invoke.c:614-638 | each visible out contributes the conversion of its own argument |
| ArgumentObject.Allocator.Release | gi/pygi-argument.c:2125-2369 | releasing by loops and recursion frees exactly the specified blocks |
| ArgumentObject.Allocator.FromObject | gi/pygi-argument.c:890-1506 | converting by loops and recursion is the specified conversion |
| Argument.CText | gi/pygi-argument.c:1087-1102 | a C string is the text up to its first NUL, or all of it |
| ArgumentObject.Allocator.ArrayFromItems | gi/pygi-argument.c:1138-1223 | items go in front to back; a failure releases the array with what it holds |
| ArgumentObject.Allocator.ListFromItems | gi/pygi-argument.c:1328-1392 | items are prepended back to front; a failure releases the list so far |
| ArgumentObject.Allocator.TableFromItems | gi/pygi-argument.c:1393-1496 | pairs go in in key order; a failure releases the table so far |
| ArgumentObject.Wrap | gi/pygi-argument.c:1520-1964 | reading back by loops is the specified conversion |
| ArgumentObject.WrapAll | gi/pygi-argument.c:1699-1713 | the list-filling loop converts every item in place |
| Ownership.ReleasePartition | gi/pygi-argument.c:2125-2369 | transfer nothing frees every block of the argument, container all but the outermost container's, everything none |
| Ownership.ConvOwns | gi/pygi-argument.c:890-1506 | a conversion reaches only fresh blocks, none twice, and all of them exactly when no table displaced one |
| OwnershipResults.ConvertThenRelease | gi/pygi-argument.c:2125-2369 | after a conversion, release frees each block at most once; nothing restores the heap, and container leaves just the outermost container, each exactly when no table displaced a block; everything leaves all |
| OwnershipResults.DisplacedValueLeaks | gi/pygi-argument.c:1476-1477 | two numbers as boolean keys: the checker accepts the mapping, and the release leaves the first value allocated |
| Failures.OutcomeIff | gi/pygi-argument.c:890-1506 | for every object and type: the conversion succeeds, or follows a pointer of the wrong type, under an exact condition on the object alone |
| Failures.FailureRestoresHeap | gi/pygi-argument.c:1208-1486 | a conversion that fails, of any type and at any depth, frees no block twice, and leaves the heap as it was if and only if no table displaced a block before the item that failed |
| Failures.FailureWithoutTables | gi/pygi-argument.c:1208-1221 | for types without tables every failure has freed each block it allocated exactly once |
| Failures.CleanLosesNothing | gi/pygi-argument.c:1476-1487 | an object none of whose tables displaces a block loses none by failing |
| Failures.RefusedAfterDisplacing | gi/pygi-argument.c:1476-1487 | a mapping whose first value is displaced before the third is refused: it stays allocated |
| Failures.RefusedAfterPointer | gi/pygi-argument.c:1470-1474 | a mapping whose value is refused after the key 1, which is then released as if it were a table |
| RoundTrip.RoundTripIff | gi/pygi-argument.c:1520-1964 | an object whose mappings have distinct, hashable keys comes back unchanged from conversion and back if and only if it is plain for its type, its strings free of NUL, and the bounds checker accepts it |
| RoundTrip.LeafReturns | gi/pygi-argument.c:418-520 | in particular an accepted integer is never truncated |
| RoundTrip.PairReturns | gi/pygi-argument.c:1463-1476 | a table pair, its value packed into a pointer and back, returns exactly when both parts survive |
| RoundTrip.PackSurvives | gi/pygi-argument.c:76-133 | unpacking a packed value reads the same object |
| RoundTrip.SurvivorsDiffer | gi/pygi-argument.c:1437-1446 | different surviving keys never look the same to the table |
| Normal.ComesBack | gi/pygi-argument.c:1520-1964 | for types without tables, what any accepted object comes back as: its truth, its number modulo the width of the type, its text up to the first NUL, its items one by one, and None as None or an empty list |
| Normal.StoreWraps | gi/pygi-argument.c:919-966 | a number that does not fit wraps around within the range of its type |
| Normal.FitsRange | gi/pygi-argument.c:418-520 | the range of each integer type |
| Normal.CheckedIff | gi/pygi-argument.c:396-760 | exactly which objects the bounds checker accepts, by type |
| StringArrays.Strings | gi/pygi-marshal-from-py.c:971-1053 | the item loop stops at the first item that is neither string nor None |
| StringArrays.Discard | gi/pygi-marshal-from-py.c:1054-1074 | the error path frees the converted items and the array |
| StringArrays.FromItems | gi/pygi-marshal-from-py.c:940-1115 | the array is built, its length handed over, and a C array loses its header |
| StringArrays.FromPyArray | gi/pygi-marshal-from-py.c:904-1115 | refuses what is no sequence or has the wrong fixed size, before allocating |
| StringArrays.CleanupFromPyArray | gi/pygi-marshal-cleanup.c:304-404 | wraps a C array, frees the items it counts, and the buffer unless it was transferred; stops at a NULL length or behind the last item |
| StringArrays.StrvLength | gi/pygi-marshal-cleanup.c:314-315 | the zero-terminated length ends at the first null pointer |
| StringArrayResults.MarshalResult | gi/pygi-marshal-from-py.c:904-1115 | exactly which objects are refused; else the array holds each item's text, NULL for None, has a buffer unless it is empty without terminator, and hands its count over |
| StringArrayResults.LengthRecomputed | gi/pygi-marshal-cleanup.c:304-333 | the recomputed length is the marshalled one for a fixed size, and in bounds but for a length argument; then it is the marshalled one exactly when the argument's pointer is set and its cell holds it, whatever wrote that |
| StringArrayResults.MarshalThenCleanup | gi/pygi-marshal-cleanup.c:335-404 | for any content of the length argument: the cleanup reads through NULL or runs past the end under an exact condition on that content; else it frees every block exactly once, except what was handed over and the strings at and behind the count; a refusal has freed exactly what it allocated |
| ArrayRuns.CleanedInCall | gi/pygi-marshal-cleanup.c:304-404 | during an invocation: the length is read through NULL exactly when the cursor has not reached it; the cleanup runs past the end exactly when the last sequence passed with the length has more items, misses exactly the strings behind its count, and the recomputed length is the marshalled one exactly when it has as many |
| ArrayRuns.CleanedAfterSuccess | gi/pygi-marshal-cleanup.c:89-111 | under the success driver no length is NULL, and the cleanup is complete exactly when no string lies behind the count of the last sequence with the length and that count is no larger |
| ArrayRuns.CleanedAfterFailure | gi/pygi-marshal-cleanup.c:151-180 | for an array the failure driver cleans as processed, the length is read through NULL exactly when it comes behind the slot that failed |
| ArrayRuns.SharedLengthMiscounts | gi/pygi-cache.c:480-484 | two arrays with one length: the first, of two strings, is cleaned with the count of the second, so it leaks for fewer and runs past the end for more |
| ArrayRuns.LengthBehindIsNull | gi/pygi-marshal-cleanup.c:316-318 | an array, two arguments and the array's length: when the second is refused, the array is cleaned up with a NULL length |
| StringArrayResults.StringBehindNoneLeaks | gi/pygi-marshal-cleanup.c:314-315 | for `[None, "a"]`, or any text in its place, a zero-terminated array leaves the string allocated whether or not the call failed |
| Packing.ScalarReturns | gi/pygi-argument.c:76-133 | whatever the unused bytes held, packing and unpacking returns exactly the plain, accepted scalars |
| Packing.ScalarReads | gi/pygi-argument.c:76-133 | exactly which scalars are packed, and what each is read back as: booleans, single bytes of either sign and cut strings included |
| Packing.FromPyList | gi/pygi-marshal-from-py.c:1150-1183 | prepending and reversing once keeps the order of the items |
| Packing.ToPyList | gi/pygi-marshal-to-py.c:520-552 | the list walk reads every cell into its own slot |
| Packing.ListRoundTrip | gi/pygi-marshal-to-py.c:505-601 | a list comes back the same, of any length, exactly when every item survives |
| Packing.ListAccepted | gi/pygi-marshal-from-py.c:1150-1168 | a surviving item is never refused |
| Packing.FromPyHash | gi/pygi-marshal-from-py.c:1318-1357 | the pairs are packed and inserted in key order |
| Packing.ToPyHash | gi/pygi-marshal-to-py.c:643-683 | any order of iteration reads the table into a dictionary |
| Packing.FilledEntries | gi/pygi-marshal-from-py.c:1318-1357 | what the table holds when keys clash: the first key of each image, with the value of the last |
| Packing.HashRoundTrip | gi/pygi-marshal-to-py.c:603-686 | a mapping comes back the same, for every order of iteration, exactly when its keys and values survive and no string key is None |
| ClosureRuns.StepInv | gi/pygi-closure.c:502-632 | every action of a run keeps the invariant on closures, list and stack |
| ClosureRuns.RunSafe | gi/pygi-closure.c:502-632 | on every run no closure is freed twice or while it runs, the list has no duplicates, a freed closure dropped each reference exactly once, and C only calls allocated closures that hold their function |
| ClosureRuns.ReturnedAsyncIsFreed | gi/pygi-closure.c:609-611 | once another closure is made every async closure that returned is freed |
| ClosureProof.CalledIsLive | gi/pygi-closure.c:536-545 | an allowed call finds an allocated closure with its function and user data |
| ClosureRuns.SecondCallFreesTwice | gi/pygi-closure.c:570-575 | after any legal run one more call of an async closure that returned, followed by the next creation, has freed it twice, whether it was still on the list or had been freed |
| ClosureRuns.ReturnedRuns | gi/pygi-closure.c:555-611 | both cases are reached from the start: legal runs after which the returned closure is on the list, and freed |
| ClosureResults.CalledHoldsItsOrigin | gi/pygi-closure.c:536-545 | on every run C calls the function the closure was made with, with the user data it was made with |
| ClosureResults.EndedInvocationFrees | gi/pygi-marshal-cleanup.c:248-259 | an ending invocation has freed, once, the call-scoped closures its cleanup reached, and left the others |
| ClosureResults.CallScopedIsFreed | gi/pygi-closure.c:555-563 | a call-scoped closure may be called as soon as it is made, and is freed when its invocation ends well |
| ClosureResults.NotifiedIsFreed | gi/pygi-closure.c:564-569 | a notified closure may be called, and its destroy-notify frees it |
| ClosureProof.OwnPrefix | gi/pygi-marshal-cleanup.c:248-259 | the call-scoped closures an ending invocation frees are allocated, distinct and idle |
| ClosureRuntime.Runtime.ClearPyData | gi/pygi-closure.c:501-518 | each reference still held is dropped and its field nulled |
| ClosureRuntime.Runtime.FreeClosure | gi/pygi-closure.c:585-597 | frees the closure with its Python data |
| ClosureRuntime.Runtime.MakeNativeClosure | gi/pygi-closure.c:600-632 | frees everything on the list, empties it, and makes a closure holding both references |
| ClosureRuntime.Runtime.FinishCallback | gi/pygi-closure.c:555-580 | an async closure drops its data and joins the list; others stay as they are |
| ClosureRuntime.Runtime.CleanupCallbacks | gi/pygi-marshal-cleanup.c:248-259 | an ending invocation frees its call-scoped closures in order |
| CallbackArgs.ConvertArguments | gi/pygi-closure.c:326-423 | Python is passed one value for each entering argument that is not skipped, in order: the user data for a `void *`, a native callback for a callback, else the argument's own value; the unskipped leaving locations are recorded |
| CallbackArgs.SkippedIff | gi/pygi-closure.c:345-372 | an argument is skipped exactly when the last callback read before it names it |
| CallbackArgs.ListsAre | gi/pygi-closure.c:326-499 | which arguments are taken, recorded, written and read, each list in order and complete |
| CallbackArgs.SetOutArguments | gi/pygi-closure.c:440-499 | the out pass uses up a location per out or inout argument and an item per argument that is no GError, whose location it drops |
| CallbackArgs.AgreeIffSkipsOnlyIns | gi/pygi-closure.c:326-423 | the j-th recorded location is that of the j-th out or inout argument exactly when no skipped argument goes out |
| CallbackArgs.SkippedOutIsLost | gi/pygi-closure.c:326-423 | with a callback whose user data goes out, the out pass looks for a location that the in pass never recorded |
| CallbackArgs.WrittenInOrder | gi/pygi-closure.c:440-499 | the return value takes item 0 and each visible argument the next item, written to its own location, exactly when enough items are returned |
| CallbackArgs.RunCallback | gi/pygi-closure.c:520-553 | both passes of one callback together |
| TreeWalk.Deque.ExtendLeftReversed | pygtkcompat/generictreemodel.py:124 | prepending the reversed children keeps their order |
| TreeWalk.WalkStep | pygtkcompat/generictreemodel.py:119-124 | a round yields the next node, puts its children in its place, and shrinks the subtrees still held |
| TreeWalk.IterDepthFirst | pygtkcompat/generictreemodel.py:116-124 | the deque loop terminates and yields the recursive pre-order, with the data found at each node's place among its parent's children |
| TreeWalk.WalkListsEveryNodeOnce | pygtkcompat/generictreemodel.py:116-124 | the pre-order lists every node exactly once, parents before children and siblings in order |

## Left out

- libffi, CPython and GLib calls are not modelled: values are sequences, maps, bounded integers and block ids; each GIL-held section is one step, and allocation never fails.
- Typelib loading, imports, module caching, option parsing, property and enum registration, spawn and error texts.
- Object references and floating references, boxed, GValue, foreign structs, variants, Gdk.Atom, arrays of structs, floats, unichar and filename encoding.
- Numbers that `PyNumber_Long` makes from strings or from objects other than integers and booleans, strings that are not valid UTF-8, and Python 2 string types.
- Caller-allocated out arguments (`gi/pygi-invoke.c:362-403`) and the dropping of a constructor's or vfunc's first argument before the merge.
- CallableCacheObject.CallableCache: slots are records in an array rather than shared pointers, so the out list holds slot numbers where the source holds the records.
- Invoke.InvokeState.CleanupParameterFail: leaves out the branch for caller-allocated arguments, and does not state that nothing leaks, because the callers pass `i - 1` and the driver treats only slots below it as processed, so the last marshalled argument is not cleaned.
- Invoke.InvokeState.AdvanceSlot: leaves out the branch for caller-allocated out arguments (`gi/pygi-invoke.c:484-493`).
- RoundTrip.RoundTripIff: reads tables back in insertion order; GLib's own order is arbitrary and Python mappings ignore it. `Packing.HashRoundTrip` is stated for every order.
- The fixed array size that the bounds checker compares lengths with (`gi/pygi-argument.c:582-587`) is no part of the types here.
- Packing.FromPyList: a refused item frees only the list cells, as the FIXME at `gi/pygi-marshal-from-py.c:1172` says; the strings converted before it are not tracked here.
- StringArrays.CleanupFromPyArray: the buffer of a pointer array is one block allocated with its header, where GLib allocates it at the first append and moves it as it grows; transfer everything is modelled as the code runs it, and nothing is claimed about it being right, since the items are freed although they were handed over.
- StringArrayResults.MarshalThenCleanup: arrays of 2^31 items and more, for which the item loop's `int` overflows, are not modelled.
- ArrayRuns.CleanedInCall: covers going-in arrays only; the cleanup of an inout array reads whatever C left in the length.
- ClosureRuntime.Runtime: frees are atomic; Python code that runs while a reference is dropped is modelled only where an async closure ends.
- CallbackArgs: the conversion of each value is a parameter; nested arrays of a callback and their lengths are not modelled.
- Releasing in direction OUT, and the to-Python cleanups, are not modelled.
