# MemoryOracle traversal engine, modelled in Dafny

MemoryOracle runs inside gdb while a C/C++ program is stopped. It discovers the program's data as an object graph.

- **Seeding.** It takes the symbols of the selected frame as roots.
- **Queue.** It keeps a FIFO queue of found objects. Each object has an identity, the *index*: the triple (raw type code, address string, true type name).
- **Processing.** It pops objects one at a time, describes them as graph nodes and expands them by type:
  - arrays into their elements;
  - structs into their fields;
  - pointers into their pointee.
- **Allocation tracking.** A breakpoint on `operator new[]` records each returned address with the size requested. A pointer whose pointee is such an address is expanded as an array of `size / sizeof(pointee)` elements. The program also defines a breakpoint class for `operator new`, but only the `new[]` breakpoint is installed (`memory/analysis.py:287-288`). Both classes are modelled.

This project models that engine, `memory/analysis.py`, in six modules:

| module | what it holds |
|---|---|
| `Wrappers` (`wrappers.dfy`) | The option type. |
| `GdbTypes` (`gdb_types.dfy`) | Debug-info types (leaf, typedef, pointer, array with bounds, struct by name), `sizeof` and the display name. The display name is given by a recursive specification (`TypeName`) and by the loop that builds it (`TrueTypeName`). |
| `Inferior` (`inferior.dfy`) | The stopped process as gdb shows it: typed values with an address or none, pointer dereference with its two error kinds, subscript and field access. |
| `Traversal` (`traversal.dfy`) | The engine's shared state as a value, with each operation as a function from the state before to the state after and the exception it lets escape (`AlreadyFound`, a failed parse of the address string `'None'`, or a division by a zero `sizeof`). |
| `TraversalProofs` (`traversal_proofs.dfy`) | The session invariant and the properties of each operation. |
| `Analysis` (`analysis.dfy`) | Classes that update state in place: `Oracle` holds the class-level shared state, then `Searcher`, `NewFinishBreak`, `NewBreak` and `NewArrayBreak`. Each class method is proved equal to its `Traversal` function, so the lemmas about those functions hold of the objects. |

**The session invariant** (`TraversalProofs.Inv`):

- no index is queued twice;
- no index is described twice;
- no index is both queued and described;
- every queued index is known;
- every described object has an address and is a graph node;
- every node is a known index;
- every edge joins two nodes.

The empty session satisfies it, and every operation keeps it.

**Behaviours of the code that the model keeps as written:**

- An array layer's name token is `"[" + (end - start) + "]"`, not the element count. A pointer to `int[4]` (bounds 0 and 3) is named `int[3]*`, not `int[4]*` (`GdbTypes.PointerToIntArrayName`).
- Only the typedefs at the top of a type are stripped. A typedef under a pointer keeps its own name.
- The type code in the index is the unstripped code, so a typedef'd value has the typedef code. Expansion dispatches on the stripped code.
- `AlreadyFound` raised by an element of an array is not caught by `_explore_range`, `_explore_array` or `Searcher.run`. It ends the whole run (`TraversalProofs.ArrayDuplicateAbortsRun`). The same holds for the `ValueError` of `int('None', 16)` on an element without an address. Only the allocation-widened path of `_explore_pointer` catches `AlreadyFound`.
- A zero `sizeof` of a tracked pointee raises `ZeroDivisionError`, which nothing catches. It is modelled as an escaping fault, not as a precondition.
- A null pointer is followed like any other pointer. Its pointee at address `0x0` gets a new index, a `"*"` edge, a place in the queue and an entry in the explored set. Once popped it is described as a node, because its address string is `"0x0"`, not `'None'` (`TraversalProofs.NullPointerFollowed`). Only struct expansion and range expansion treat `0x0` as null: a struct at `0x0` is not expanded, and an element at `0x0` is not queued.

## Model

| member | source | states |
|---|---|---|
| `GdbTypes.TrueTypeName` | memory/analysis.py:107-123 | The name built by peeling pointer and array layers into a token list and appending the tokens back to front equals the recursive display name of the typedef-stripped type. |
| `GdbTypes.OuterLayerRightmost` | memory/analysis.py:110-123 | The outermost layer's token (`*`, or `[end-start]`) is the rightmost part of the name. A type with no pointer or array layer is named by its base name alone. |
| `GdbTypes.PeelLayer` | memory/analysis.py:111-116 | Recording the outermost layer's token and descending to its target leaves the eventual name unchanged. This is the step each iteration of the peeling loop takes. |
| `GdbTypes.TypedefExamples` | memory/analysis.py:108-115 | A typedef at the top is transparent, while a typedef under a pointer layer keeps its own name: `T*` for a pointer to typedef `T`. |
| `GdbTypes.PointerToIntArrayName` | memory/analysis.py:111-113 | A pointer to an array with bounds 0..3 is named `int[3]*` (bound difference), not `int[4]*`. |
| `GdbTypes.StripTypedefs` | memory/analysis.py:108 | The stripped type is never a typedef. |
| `Inferior.Dereference` | memory/analysis.py:205-206 | Dereference yields a pointee of the pointer's target type at a concrete address exactly when the pointer has an address, that word is readable and the target is not void. Otherwise it yields a memory error or a debugger error. |
| `Analysis.Oracle.constructor` | memory/analysis.py:19-52 | A new session is empty and satisfies the session invariant. |
| `Analysis.Oracle.Extract` | memory/analysis.py:85-102 | The index is (raw type code, address, true type name). It is reported new exactly when it was not known. Either way it is known afterwards, and a known index leaves the whole state unchanged (the `AlreadyFound` case). |
| `Analysis.Oracle.ExtractSymbols` | memory/analysis.py:68-82 | Seeding equals `SeedFrom` over the roots of the block's symbols: known symbols are skipped, an unreadable symbol ends the seeding, and an unreadable block changes nothing. |
| `Analysis.Oracle.Run` | memory/analysis.py:54-64 | Seeding followed by one searcher's run equals `Analyze`, and keeps the session invariant. |
| `Analysis.Searcher.Run` | memory/analysis.py:131-146 | The poll loop equals `RunFrom` from zero misses, and keeps the session invariant. |
| `Analysis.Searcher.ExploreObject` | memory/analysis.py:148-155 | Dispatch on the typedef-stripped code equals `ExploreObject`. |
| `Analysis.Searcher.Describe` | memory/analysis.py:157-163 | The new state is `Describe` of the old one. |
| `Analysis.Searcher.ExploreRange` | memory/analysis.py:165-176 | The element loop equals `RangeFrom` over the run of children for `lo..hi`, including where it stops on `AlreadyFound` or on an element without an address. |
| `Analysis.Searcher.ExploreArray` | memory/analysis.py:178-180 | An array is expanded over the bounds of its stripped type. |
| `Analysis.Searcher.ExploreStruct` | memory/analysis.py:182-197 | The field loop equals `ExploreStruct`. |
| `Analysis.Searcher.ExplorePointer` | memory/analysis.py:199-233 | The new state and escaping exception equal `ExplorePointer` in all three cases and on every error path. |
| `Analysis.NewFinishBreak.constructor` | memory/analysis.py:249-252 | The return breakpoint remembers the requested size. |
| `Analysis.NewFinishBreak.Stop` | memory/analysis.py:254-258 | Records `ret -> size`, overwriting an earlier entry, and removes only `ret` from the explored set. Nothing else changes, and execution is not stopped. |
| `Analysis.NewBreak.Stop` | memory/analysis.py:269-272 | Arms a new return breakpoint with argument 0 as its size and does not stop. |
| `Analysis.NewArrayBreak.Stop` | memory/analysis.py:281-285 | Arms a new return breakpoint with argument 0 as its size and does not stop. |
| `TraversalProofs.DescribeRecordsAddressed` | memory/analysis.py:157-163 | An object is appended to `described` and becomes a node if and only if its address is not `'None'`. Nothing else changes. |
| `TraversalProofs.LeavesAreNotExpanded` | memory/analysis.py:148-155 | An object whose stripped type is not an array, struct or pointer is not expanded. |
| `TraversalProofs.StepKeepsInv` | memory/analysis.py:134-138 | One pop, describe and expand keeps the invariant and is FIFO: the rest of the queue stays in front, in order. Everything newly queued had an identity unknown before the step. |
| `TraversalProofs.RunKeepsInv` | memory/analysis.py:131-146 | A run keeps the invariant however it ends, and known indexes only grow. |
| `TraversalProofs.FinishedRunIsDrained` | memory/analysis.py:131-146 | A run that returns normally leaves the queue empty. |
| `TraversalProofs.DrainedRunFinishes` | memory/analysis.py:139-146 | With an empty queue, the run returns unchanged on the fourth consecutive empty poll, after three misses. |
| `TraversalProofs.SeedKeepsInv` | memory/analysis.py:68-82 | Seeding keeps the invariant and adds no edge. Everything it queues is one of the block's roots and had an index unknown before. |
| `TraversalProofs.SeedQueuesRoots` | memory/analysis.py:69-77 | Every object seeding queues is a root: it has no parent and is named after one of the block's symbols. |
| `TraversalProofs.SeedQueuesInOrder` | memory/analysis.py:69-80 | Up to the first unreadable symbol, seeding appends, in block order, exactly the roots whose index was not met before them. An index counts as met if it was known before the block or belongs to an earlier root of the block. A skipped root does not end the seeding. |
| `TraversalProofs.SeedingQueuesNewSymbols` | memory/analysis.py:66-82 | For a readable block: every symbol up to the first unreadable one is queued in block order, as a root named after the symbol, unless its index was already met, before the block or earlier in it. |
| `TraversalProofs.DuplicateSymbolSkipped` | memory/analysis.py:69-80 | In a fresh session, a block of three readable symbols whose second repeats the first one's index queues the first and the third: the `AlreadyFound` of the second is skipped and seeding goes on. |
| `TraversalProofs.SeedStopsAtUnreadable` | memory/analysis.py:70-82 | The first symbol whose value cannot be read ends the seeding: later symbols have no effect. |
| `TraversalProofs.AnalyzeKeepsInv` | memory/analysis.py:54-64 | A whole analysis keeps the invariant: no index is queued or described twice, and every edge joins two nodes. |
| `TraversalProofs.RangeKeepsInv` | memory/analysis.py:165-176 | Range expansion keeps the invariant and only appends objects with fresh indexes. |
| `TraversalProofs.RangeFrame` | memory/analysis.py:165-176 | Range expansion leaves the explored set and the allocations alone, and can raise only `AlreadyFound` or the bad-address error. |
| `TraversalProofs.RangeLearnsFresh` | memory/analysis.py:170-171 | A completed expansion met only fresh, pairwise distinct indexes with an address, and learned exactly those. |
| `TraversalProofs.RangeQueuesInOrder` | memory/analysis.py:172-176 | A completed expansion queues exactly the children with a nonzero address, in index order, and adds one `"[]"` edge from the parent to the first child. |
| `TraversalProofs.RangeCompleted` | memory/analysis.py:165-176 | A completed expansion satisfies both of the previous two rows together. |
| `TraversalProofs.ElementsShape` | memory/analysis.py:166-170 | The run of children for `lo..hi` has one child per index, in index order: child `k` is element `lo + k`. |
| `TraversalProofs.ArrayExpansion` | memory/analysis.py:165-180 | A completed array expansion has one child per index in `[start, end]`, named `name[i]`, with the array as parent and distinct indexes. It queues the nonzero-address children in order and adds a single `"[]"` edge to the first element. |
| `TraversalProofs.ArrayDuplicateAbortsRun` | memory/analysis.py:131-180 | An array at the head of the queue whose first element's index is already known aborts the whole run with `AlreadyFound`. |
| `TraversalProofs.StructKeepsInv` | memory/analysis.py:188-197 | The field scan keeps the invariant. |
| `TraversalProofs.StructFrame` | memory/analysis.py:188-197 | The field scan only appends field children with a non-null address and fresh indexes. It adds no edges or nodes and leaves the explored set and the allocations alone. |
| `TraversalProofs.ScanStop` | memory/analysis.py:188-195 | Every field scan has a stopping point. The fields before it have fresh, pairwise distinct indexes. The field at it, if any, has an index already known when the scan reaches it. |
| `TraversalProofs.StructQueuesInOrder` | memory/analysis.py:188-197 | Up to its stopping point, the field scan appends, in field order, exactly the field children whose address is not null. |
| `TraversalProofs.StructLearnsScanned` | memory/analysis.py:190-195 | The field scan learns exactly the indexes of the fields before its stopping point. |
| `TraversalProofs.StructExpansion` | memory/analysis.py:182-197 | A struct with a null address (`'None'` or `0x0`) is not expanded, and no edge is ever added. Otherwise the scan has a stopping point: the first field whose index is already known. Up to that point every field's index is learned, and every non-null field child is queued in field order, named after the struct, with the struct as parent. |
| `TraversalProofs.StructStopsAtDuplicate` | memory/analysis.py:190-195 | The first field whose index is already known ends the scan: no later field has any effect. |
| `TraversalProofs.PointerKeepsInv` | memory/analysis.py:199-233 | Pointer expansion keeps the invariant and only appends fresh objects. |
| `TraversalProofs.PointerExpansion` | memory/analysis.py:199-233 | A dereference error changes nothing. An unexplored, untracked pointee becomes one child `*name` with a `"*"` edge and is marked explored, or changes nothing if its index is known. An explored pointee is never queued again and gets a `"*"` edge only when its index is new. |
| `TraversalProofs.NullPointerFollowed` | memory/analysis.py:199-221 | A pointer whose word reads 0, with an unexplored, untracked pointee of unknown index, is followed. `*name` is queued with a `"*"` edge, address 0 is marked explored, and describing the child later records it, since its address is `0x0`, not `'None'`. |
| `TraversalProofs.WidenedElements` | memory/analysis.py:209-213 | A pointer widened to `n` elements has exactly `n` children. Child `k` lies `k` pointee sizes past the pointee (`ret + k*sizeof`), has the pointee's type, is named `name[k]` and has the pointer as parent. |
| `TraversalProofs.WidenPointerCompletes` | memory/analysis.py:207-214 | Widening a tracked, unexplored pointee lets only the bad-address error escape. The address ends up explored if and only if the element expansion completed. A completed expansion queued the nonzero-address children in order and added one `"[]"` edge from the pointer to the first child. An expansion cut short by `AlreadyFound` is swallowed: what it queued and linked before the duplicate stays, and the address stays unexplored. |
| `TraversalProofs.AllocationWidening` | memory/analysis.py:207-214 | Once the allocator has reported `size` bytes at the pointee's address, dereferencing the pointer widens it to `size / sizeof` elements (truncated). The address ends up explored if and only if that expansion completed, with the outcome of the previous row. |
| `TraversalProofs.AllocationKeepsInv` | memory/analysis.py:254-258 | Recording an allocation keeps the invariant. |

## Left out

- `memoryoracle_client/launcher/launch.py` is not part of this model. It starts valgrind and gdb as subprocesses and does nothing else.
- gdb itself is abstracted:
  - symbols, values, types and memory become the datatypes of `GdbTypes` and `Inferior`, with the readable memory as a map from address to pointer-sized word;
  - `gdb.MemoryError` and `gdb.error` become the two failure outcomes of a dereference;
  - a struct's fields come from a layout table;
  - a value held in a register (no address) is treated as one that cannot be dereferenced.
- The `x86_64` register reads become plain parameters: `ret` of `NewFinishBreak.Stop` and `arg0` of the two `Stop` methods. Breakpoint installation, the `internal`/`silent` flags and the module-level breakpoint object are not modelled.
- `NewBreak.allocated` is kept in the oracle's state, beside `explored`, not on a separate class.
- The networkx graph is a node set and a labelled edge set. Adding an edge adds both endpoints as nodes.
- The extra record fields that nothing reads are not modelled: `frame`, `tag`, `is_valid`, and the whole dict copy made by `update(x)`. A record is its name, parent, value and index. The address string is read: it is part of the index, compared with `'None'` and with `0x0`, and parsed with `int(addr, 16)`. The model's `Addr` stands for it, as `'None'` or a plain hexadecimal address.
- Address strings that gdb decorates are not modelled:
  - `str()` of the address of a `char` object carries the pointed-to text after the hexadecimal address;
  - `str()` of an address that matches a symbol carries a `<symbol+offset>` label.
  For such a string, `int(addr, 16)` in `_explore_range` (memory/analysis.py:175) raises `ValueError`, and nothing catches it. So the program aborts its run at the first such element: an element of a local `char` array, of a global array, or of a widened `new char[]` buffer. The same string is not null for struct expansion (memory/analysis.py:196), so such a field is queued. The model only has plain addresses, so it queues those elements and carries on.
- Block symbols that have no value at all, such as a typedef or struct tag declared inside the function, are not modelled. gdb's `Symbol.value()` raises `TypeError` for them. That is not a `RuntimeError`, so it escapes `_extract_symbols` (memory/analysis.py:69-81) and `Oracle.run`, and no search takes place. The model's `Symbol` is either readable or raises `gdb.error`, which `_extract_symbols` catches (`None`, which ends the seeding).
- Not modelled, with no effect on state:
  - `gdb.write` logging;
  - `time.sleep` between empty polls;
  - the `daemon` flag;
  - the unused `MAX_QUEUE_SIZE`, `MAX_SEARCHERS`, `_arrowMatch`, `_lookup` and `arrays`.
- The `gdb.MemoryError` handler in `_describe` is never reached in the model, because describing reads nothing from the process.
- Concurrency between breakpoint callbacks and the searcher is not modelled. A breakpoint's `Stop` is a separate method call between searcher steps.
- Analysis.Searcher.Run: bounded by `fuel`, a maximum number of polls, so that its specification is a terminating function. Termination of the traversal itself is not proved, and a run that exhausts its fuel ends as `OutOfFuel`.
- TraversalProofs.AllocationWidening: Python 3 divides `size / typeSize` as floating point and truncates with `int()`. The model uses integer floor division, which agrees for the non-negative operands involved, up to floating-point rounding of very large sizes.
- Analysis.NewFinishBreak.Stop: addresses and sizes are unbounded naturals. The 64-bit width of the registers is not modelled.
- A type without a name (an anonymous struct, which gdb names `None`) is given a name string like every other leaf. The `None + "*"` type error this would cause in Python is not modelled.
