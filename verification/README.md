# The embedded Lua virtual machine of the LuatOS Air firmware, modelled in Dafny

The firmware runs scripts on a Lua 5.1 virtual machine and brings a few modules of its own.
This project models the parts of it whose correctness no single branch settles, one group of
Dafny modules for each, in the form the C code has: state that is updated in place is a class
with those fields, loops are loops, and every method is proved against a specification that
is then the subject of lemmas.

* **The collector** (`lgc.c`, `lfunc.c`, `lstring.c`): `GcHeap`, `GcMarks`, `GcInv`, `GcMutate`,
  `GcUpvals`, `GcFree`, `GcClear`, `GcAtomic`, `GcRun`, `GcStores` and the class `Gc.Collector`.
  The heap is a map from references to bodies; colours, the three work lists, the sweep
  positions, the string table and the upvalue ring are separate fields. `GcInv.Inv` is the
  invariant in each of the five states, and every operation of collector and mutator keeps it.
* **The code generator** (`lcode.c`, with the order of calls from `lparser.c`, and the tests of
  `lvm.c`): `CodeSem`, `CodeExp`, `CodeFits`, `CodeGood`, `CodeBlock` and the class `Codegen.FuncState`. Pending
  jumps are threaded through the instructions themselves. `CodeProto` encodes what was emitted and
  connects it with the checker below; `VmRun` is the interpreter loop on the words themselves, and
  `CodeWords` connects it with what was emitted.
* **The bytecode checker and the interpreter loop** (`ldebug.c`, `lvm.c`): `Opcodes`, `Protos`,
  `Checker`, `CheckerRules`, `VmSafety`, `VmTop`.
* **Tables** (`ltable.c`): `TableChains`, `TableSizes`, `TableMap`, `TableRehash` and the class
  `Tables.Table`.
* **Precompiled chunks** (`ldump.c`, `lundump.c`, `lzio.c`): `Chunks`, `Dump`, `ChunkExample`.
* **JSON** (`lua_cjson.c`, `strbuf.c`, `fpconv.c`): `JsonText`, `JsonCodec`, `JsonRoundTrip`, `JsonGrammar`
  and `JsonTrees` (the texts of RFC 8259 with what they mean), the class `Strbufs.Strbuf` and the classes `Json.Encoder` and `Json.Parser`.
* **Smaller cores**: `Sort` (`ltablib.c`), `Subexpr` (`lparser.c`), `IntQueue` (`elua_int.c`), `Sha1` and
  `Sha1Example` (`aliyun_iot_common_sha1.c`), `AesTables`, `AesMix`, `AesField`, `Aes`, `AesStandard` (`aes.c`).

What code and specification have in common (tables, formats, priorities, what a field refers to) is
stated once more on its own: with the numbers of the header files or the standard, by the laws that
it meets, or by a known answer.

`Basics` and `Limits` hold what several of them share. `dafny verify dfyconfig.toml` checks
everything.

Numbers are those of the device, which is built with `LUA_NUMBER_INTEGRAL` (`luaconf.h:51-53`): 32-bit
longs, written with `%d` and read with `strtol`.

Lua errors are result values (`Basics.Status`, or a `Result` type of the module), allocation
succeeds, and what a method cannot decide in C (which address a new object gets, what a reader
delivers, what an order function answers) is a parameter. Three places where the code does less
than its comments promise are stated with the input that shows it and the exact condition under
which the promise holds: `VmSafety.CheckerOverlooksBoolSkip` with `VmSafety.CheckedCodeIsSafeIff`,
`VmTop.TopIsReadUnopened` with `VmTop.ReadsOpenedIff`, and `IntQueue.FailureStrands` with `IntQueue.FailureIsReached` and `IntQueue.FailureIsHarmlessIff`. A fourth, that a dumped tree
comes back unchanged, is true exactly for trees in which every function has a source
(`Chunks.LoadedIsSame`); and `JsonRoundTrip.ComesBackIff` says which of the values that have a JSON text
come back from it as they were.

## Model

| member | source | states |
|---|---|---|
| GcInv.ReachableIsAlive | core/cust_src/elua/lua/src/lgc.c:407-428 | in every state of the collector that meets the invariant, nothing that a path of references from a root leads to, through weak slots or not, is freed or about to be freed by the sweep |
| GcInv.NothingDangles | core/cust_src/elua/lua/src/lgc.c:407-428 | in every state of the collector no field of a live object refers to a freed one, field by field: metatable and environment of a userdata, environment, prototype and upvalues of a closure, a closed value, metatable, array and valued entries of a table, globals, stack and open upvalues of a thread, names, constants and children of a prototype |
| GcHeap.KeepsMeans | core/cust_src/elua/lua/src/lgc.c:158-320 | what each kind of object keeps alive, as its fields: a metatable is always kept, weak keys and weak values are not, and an entry without a value keeps nothing |
| GcClear.ClearBodyMeans | core/cust_src/elua/lua/src/lgc.c:351-375 | what clearing does to each slot and each entry of a weak table: a dead weak value goes from the array part, an entry with a dead key or value loses its value, strings never die |
| Gc.Collector.SingleStep | core/cust_src/elua/lua/src/lgc.c:556-607 | one step of the five-state machine from any state keeps the invariant, does to heap and marks exactly what its state allows, and outside the pause descends a well-founded order, so that every cycle ends |
| Gc.Collector.Step | core/cust_src/elua/lua/src/lgc.c:610-631 | what the program sees of a step: every strongly reachable object is still there and unchanged, except that threads lose dead upvalues, upvalues are closed over their value and weak tables lose entries with a key or value that is not strongly reachable; no field of a live object, nor a root, refers to a freed one |
| GcRun.StepIsSafe | core/cust_src/elua/lua/src/lgc.c:556-607 | the same as a statement about any two states that a step connects; strong tables never change |
| Gc.Collector.FullGc | core/cust_src/elua/lua/src/lgc.c:636-659 | from any collector state a full collection ends in the pause; what is left is exactly the strongly reachable objects, the fixed ones and the strings in weak slots of reachable tables, and a table that stays has lost exactly the weak entries whose key or value went; no field of anything left, and neither main thread, running thread, registry nor basic metatables, refers to a freed object |
| GcRun.FullIsExact | core/cust_src/elua/lua/src/lgc.c:636-659 | the survivors of the two sweeps and the marking between them, in terms of the heap that the collection began with |
| GcRun.StrongIsLeast | core/cust_src/elua/lua/src/lgc.c:273-320 | the strongly reachable objects are the least set that contains the roots and is closed under strong references |
| GcRun.SweepsKeepStrong | core/cust_src/elua/lua/src/lgc.c:407-428 | sweeping changes nothing about what is strongly reachable |
| Gc.Collector.ReallyMarkObject | core/cust_src/elua/lua/src/lgc.c:69-112 | marking keeps the tri-colour invariant with the objects under way exempt, colours only white objects within a given closed set, marks the object and makes the set of white objects smaller |
| Gc.Collector.PropagateMark | core/cust_src/elua/lua/src/lgc.c:277-320 | traversing the first gray object keeps the tri-colour invariant; the pair of white objects and gray length goes down |
| Gc.Collector.PropagateAll | core/cust_src/elua/lua/src/lgc.c:323-327 | terminates with an empty gray list |
| Gc.Collector.TraverseTable | core/cust_src/elua/lua/src/lgc.c:158-198 | afterwards everything the table keeps alive is marked, and the table is on the weak list exactly if its metatable has a mode |
| Gc.Collector.MarkRoot | core/cust_src/elua/lua/src/lgc.c:501-512 | starts a cycle on an all-white heap: main thread and registry are marked, and only members of any closed set with the roots |
| Gc.Collector.RemarkUpvals | core/cust_src/elua/lua/src/lgc.c:515-522 | after it no open upvalue that was reached refers to a white object, whatever became of its thread |
| Gc.Collector.AtomicMark | core/cust_src/elua/lua/src/lgc.c:525-545 | after the remarking of the atomic step nothing is left to traverse: everything a marked object keeps alive is marked |
| Gc.Collector.Atomic | core/cust_src/elua/lua/src/lgc.c:525-553 | after the flip exactly the objects marked, the fixed ones and the strings in their weak slots are alive; the marked ones are a closed set with the roots within every such set, and the weak tables lost exactly their dying entries |
| GcAtomic.FlipKeepsInv | core/cust_src/elua/lua/src/lgc.c:546-552 | flipping the current white keeps the invariant: no survivor refers to an object that became dead |
| GcAtomic.MarkedIsLeast | core/cust_src/elua/lua/src/lgc.c:525-553 | what was marked is closed under strong references and within every closed set that marking started in |
| GcAtomic.SavedOrLive | core/cust_src/elua/lua/src/lgc.c:351-375 | the list of weak tables, from which strings are saved, misses only tables whose strings are marked anyway |
| GcAtomic.ClearedExactly | core/cust_src/elua/lua/src/lgc.c:351-375 | clearing the tables on the list is clearing every reached table with the mode its metatable has now |
| Gc.Collector.ClearTables | core/cust_src/elua/lua/src/lgc.c:351-375 | every listed table loses exactly the entries with a white key or value that is no string, and exactly the strings in them are marked |
| Gc.Collector.SweepBucket | core/cust_src/elua/lua/src/lgc.c:407-428 | sweeping a bucket of the string table frees dead strings only and leaves the rest white |
| Gc.Collector.SweepList | core/cust_src/elua/lua/src/lgc.c:407-428 | at most so many objects are swept; only dead ones are freed, live ones become white, and there is less to sweep afterwards |
| GcRun.SweepDoneKeepsInv | core/cust_src/elua/lua/src/lgc.c:583-594 | when the sweep reaches the end of the object list every object is white again |
| Gc.Collector.FindUpval | core/cust_src/elua/lua/src/lfunc.c:53-79 | a slot that has an open upvalue gets that one again, a dead one revived, so that closures share it; otherwise the new one keeps the list strictly descending with one entry for each slot |
| Gc.Collector.CloseUpvals | core/cust_src/elua/lua/src/lfunc.c:96-112 | exactly the upvalues at or above the level leave the list; the dead ones are freed, the live ones keep the value their slot has |
| GcUpvals.CloseHolds | core/cust_src/elua/lua/src/lgc.c:695-710 | closing an upvalue changes what no object refers to |
| GcUpvals.CloseKeepsInv | core/cust_src/elua/lua/src/lfunc.c:96-112 | outside the mark phase a closed upvalue is white and the invariant holds |
| GcUpvals.AddOpenKeepsInv | core/cust_src/elua/lua/src/lfunc.c:68-78 | a new open upvalue, chained in at its place and into the ring, keeps the invariant in every state |
| Gc.Collector.CloseBarrier | core/cust_src/elua/lua/src/lgc.c:695-710 | a black upvalue that was closed over a white value has that value marked and the invariant holds again |
| Gc.Collector.NewLstr | core/cust_src/elua/lua/src/lstring.c:75-93 | a text has one string object only; it is found again even when it is dead already and is alive afterwards, and otherwise a new one is added |
| Gc.Collector.ResizeStrings | core/cust_src/elua/lua/src/lstring.c:22-47 | the same strings in a table of another size, each in the bucket of its hash; nothing while the sweep is walking through the table |
| Gc.Collector.Link | core/cust_src/elua/lua/src/lgc.c:686-692 | a new object in any state of the collector is alive and the invariant holds |
| Gc.Collector.NewUdata | core/cust_src/elua/lua/src/lstring.c:96-111 | a new userdata goes behind the main thread in the object list, in any state of the collector |
| Gc.Collector.TableStore | core/cust_src/elua/lua/src/lgc.c:675-683 | a store of a value, or of a new key and its value, into a table with the backward barrier for each keeps the invariant in every state |
| Gc.Collector.ObjectStore | core/cust_src/elua/lua/src/lgc.c:662-672 | a store into another object with the forward barrier keeps the invariant in every state |
| Gc.Collector.StackStore | core/cust_src/elua/lua/src/lvm.c:466-471 | a store into a stack slot, through an open upvalue or not, keeps the invariant and changes that slot only |
| Gc.Collector.SetMetatable | core/cust_src/elua/lua/src/lgc.c:493-498 | a basic metatable may be replaced in any state of the collector without a barrier |
| Gc.Collector.Resume | core/cust_src/elua/lua/src/ldo.c:417-441 | another thread may run from any state on |
| Gc.Collector.Fix | core/cust_src/elua/lua/src/lstring.h:24 | a live string that is fixed is kept from then on and the invariant holds |
| GcStores.StackStoreKeepsInv | core/cust_src/elua/lua/src/lgc.c:515-522 | a store into a stack slot needs no barrier, even one that an open upvalue reads |
| GcStores.RootStoreKeepsInv | core/cust_src/elua/lua/src/lgc.c:493-498 | basic metatables and the running thread may change at any time, because the atomic step marks them again |
| GcStores.BackStoreKeepsInv | core/cust_src/elua/lua/src/lgc.c:675-683 | a black table that gets a white key or value becomes gray again and the invariant holds |
| GcStores.ForwardWhiteStoreKeepsInv | core/cust_src/elua/lua/src/lgc.c:662-672 | in a sweep phase it is enough to turn the object stored into white |
| Codegen.FuncState.AssignLocal | core/cust_src/elua/lua/src/lcode.c:390-411 | for every expression of locals, upvalues, number and string constants, comparisons, arithmetic, not, and, or: running the code emitted for `v = e` leaves in v what evaluating e gives and changes no other active register, whatever instruction follows; it fails only if registers or code run out of a bound given by the size of the expression |
| Codegen.FuncState.ReturnValue | core/cust_src/elua/lua/src/lcode.c:422-434 | the finished code for `return e`, in which no jump is pending, returns what evaluating e gives, and fails only within the same bounds |
| Codegen.FuncState.Block | core/cust_src/elua/lua/src/lparser.c:1382-1394 | the code of any block of assignments to locals that ends in a return, run from its first to its last instruction, returns what the block means as a sequence of statements |
| Codegen.FuncState.CompileFunction | core/cust_src/elua/lua/src/lparser.c:372-390 | a block of assignments to locals and a return, compiled and closed to a prototype: the words of its code, executed by opcode number and fields as lvm.c decodes them, return what the statements mean, and the checker accepts it; fails only within the stated bounds |
| CodeBlock.DoesMore | core/cust_src/elua/lua/src/lparser.c:1382-1394 | if a piece of code does what some statements mean however it goes on, then with the code of one more statement it does what all of them mean |
| CodeBlock.ThenReturns | core/cust_src/elua/lua/src/lparser.c:1290-1320 | with the code of a return behind it, what is returned is the value of the expression after those statements |
| CodeWords.StepWord | core/cust_src/elua/lua/src/lvm.c:392-781 | a step of the emitted code is what the interpreter does with its words: MOVE, LOADK, LOADBOOL, GETUPVAL, ADD to POW, NOT, JMP, EQ, LT, LE, TEST, TESTSET |
| CodeWords.RunWords | core/cust_src/elua/lua/src/lvm.c:392-781 | emitted code that runs to a return is, as words, a function that returns that value |
| CodeSem.EvalLaws | core/cust_src/elua/lua/src/lvm.c:524-600 | what expressions mean, without the definition: only nil and false are false; which operand and, or yield |
| CodeSem.CompareLaws | core/cust_src/elua/lua/src/lcode.c:681-694 | what comparisons mean: which are negated and which have their operands exchanged |
| CodeSem.ArithLaw | core/cust_src/elua/lua/src/lvm.c:489-512 | the first operand comes first; locals, upvalues and constants mean what the registers and tables hold |
| CodeSem.RunOn | core/cust_src/elua/lua/src/lcode.c:150-160 | patching some pending jumps of a piece of code, and nothing else, turns each run of it that leaves by such a jump into a run that goes on at the jump's target with its value copied, and leaves all other runs as they are |
| CodeExp.ListUnique | core/cust_src/elua/lua/src/lcode.c:100-106 | an instruction array determines the members of the jump list that starts at a position |
| CodeExp.ListNoDup | core/cust_src/elua/lua/src/lcode.c:100-106 | a jump list has no cycle: no jump is in it twice |
| CodeExp.ListConcat | core/cust_src/elua/lua/src/lcode.c:185-196 | linking the last jump of one list to another list appends the two, and keeps both acyclic |
| Codegen.FuncState.Concat | core/cust_src/elua/lua/src/lcode.c:185-196 | luaK_concat appends the lists and changes one instruction only |
| Codegen.FuncState.PatchListAux | core/cust_src/elua/lua/src/lcode.c:150-160 | exactly the jumps of the list get their targets, by the value target if they carry the value to the register; no other instruction changes |
| Codegen.FuncState.RemoveValues | core/cust_src/elua/lua/src/lcode.c:144-147 | exactly the tests that would copy a value for a jump of the list become plain tests |
| Codegen.FuncState.Jump | core/cust_src/elua/lua/src/lcode.c:59-66 | the jumps waiting for the next instruction stay on hold behind the new jump, in one list |
| Codegen.FuncState.PatchToHere | core/cust_src/elua/lua/src/lcode.c:179-182 | the list joins the jumps that wait for the next instruction |
| Codegen.FuncState.Exp2Reg | core/cust_src/elua/lua/src/lcode.c:390-411 | whatever jumps an expression has pending, afterwards its value is in the register on every path and none is pending |
| Codegen.FuncState.JumpOnCond | core/cust_src/elua/lua/src/lcode.c:524-536 | the emitted test jumps exactly when the value counts as the condition says |
| Codegen.FuncState.GoIfTrue | core/cust_src/elua/lua/src/lcode.c:539-564 | code falls through exactly when the value is true and the jumps for a false value are listed |
| Codegen.FuncState.GoIfFalse | core/cust_src/elua/lua/src/lcode.c:567-591 | the mirror image for a false value |
| Codegen.FuncState.CodeNot | core/cust_src/elua/lua/src/lcode.c:594-626 | the value is negated and the two jump lists have changed places without values |
| Codegen.FuncState.CodeComp | core/cust_src/elua/lua/src/lcode.c:681-694 | a comparison of two operands, with the operands exchanged for greater-than, means what the relation means |
| Codegen.FuncState.CodeArith | core/cust_src/elua/lua/src/lcode.c:661-678 | an arithmetic instruction on two operands means the operation; both scratch registers are free again |
| Codegen.FuncState.PosJunction | core/cust_src/elua/lua/src/lcode.c:745-760 | the code of `and' and `or' yields the first operand if that decides and the second otherwise |
| CodeExp.JunctionDenotes | core/cust_src/elua/lua/src/lcode.c:745-760 | the run of a junction is the run of its operands one after the other, left early by the jumps that decide |
| CodeExp.NotDenotes | core/cust_src/elua/lua/src/lcode.c:594-626 | without values on its jumps, code with its lists exchanged denotes the negation |
| Codegen.FuncState.CloseFunc | core/cust_src/elua/lua/src/lparser.c:372-390 | what the source asserts at the end of every function: closed with the final return and encoded as words, a function of local assignments and returns is accepted by the bytecode checker; and every run of it stays inside the code and decodes only what exists |
| CodeProto.FinishedIsAccepted | core/cust_src/elua/lua/src/ldebug.c:484-486 | the same for any code in which every test has its jump, every jump its target and every operand is in range |
| CodeProto.InstrAccepted | core/cust_src/elua/lua/src/ldebug.c:317-462 | an encoded instruction of that kind meets the demands on its opcode |
| CodeFits.LandResolved | core/cust_src/elua/lua/src/lcode.c:150-196 | when jumps to here land on the next instruction, no jump or value-copying test stays open but those of the other lists, and targets stay inside the code |
| CodeFits.PatchResolved | core/cust_src/elua/lua/src/lcode.c:150-160 | resolving a list closes exactly its members, forward and inside the code |
| Codegen.FuncState.Compile | core/cust_src/elua/lua/src/lparser.c:844-869 | an expression descriptor that stands for the value of the expression; fails only if more registers or instructions are needed than Need and Cost say are free |
| CodeGood.NextInstruction | core/cust_src/elua/lua/src/lvm.c:556-600 | when the next instruction lands the jumps on hold, every run of the code arrives there with the value in its register |
| Checker.CheckDest | core/cust_src/elua/lua/src/ldebug.c:346-361 | the scan backwards over SETLIST look-alikes says true exactly if the destination is an instruction inside the code and not a count word |
| Checker.CheckInstr | core/cust_src/elua/lua/src/ldebug.c:317-462 | one turn of the scan accepts exactly the instructions that meet the demands stated for their opcode |
| Checker.SymbExec | core/cust_src/elua/lua/src/ldebug.c:317-475 | the scan over the whole code succeeds exactly for the prototypes in which every instruction meets the demands |
| Checker.CheckCode | core/cust_src/elua/lua/src/ldebug.c:484-486 | accepts exactly those prototypes |
| CheckerRules.FunctionRules | core/cust_src/elua/lua/src/ldebug.c:276-285 | what the checker asks of a whole function, by numbers |
| CheckerRules.CountWords | core/cust_src/elua/lua/src/ldebug.c:346-361 | exactly the word behind a SETLIST with C equal to 0 that is itself an instruction is none |
| CheckerRules.LoadRules | core/cust_src/elua/lua/src/ldebug.c:317-462 | what is demanded of moves, loads, upvalues, globals and table accesses, opcode by opcode with the numbers of lopcodes.h, and no more |
| CheckerRules.OperatorRules | core/cust_src/elua/lua/src/ldebug.c:317-462 | the same for arithmetic, unary operators and concatenation |
| CheckerRules.TestRules | core/cust_src/elua/lua/src/ldebug.c:317-462 | the same for the jump and for the tests before one |
| CheckerRules.CallRules | core/cust_src/elua/lua/src/ldebug.c:317-462 | the same for calls, returns, loops, table items, closures and varargs; an open call or vararg asks for CALL, TAILCALL, RETURN or SETLIST with B equal to 0 behind it |
| CheckerRules.UnknownOpcode | core/cust_src/elua/lua/src/ldebug.c:317-325 | opcodes from 38 on are refused |
| VmSafety.RunsStayInside | core/cust_src/elua/lua/src/lvm.c:392-781 | every run of an accepted prototype whose LOADBOOL skips land on instructions stays on instructions of the code and decodes only registers, constants, upvalues and children that exist |
| VmSafety.StepStaysInside | core/cust_src/elua/lua/src/lvm.c:392-781 | one step from an instruction of an accepted prototype reads only words of the code and arrives at an instruction, exactly if its LOADBOOL skip is one that the checker's test would pass |
| VmSafety.StepDecodesInRange | core/cust_src/elua/lua/src/lvm.c:392-781 | every register, constant, upvalue and child index that a step of an accepted prototype decodes is in range |
| VmSafety.CheckedCodeIsSafeIff | core/cust_src/elua/lua/src/ldebug.c:374-380 | all steps of an accepted prototype are safe exactly if each LOADBOOL with C above 1 would pass the test that the checker makes for C equal to 1 |
| VmSafety.CheckerOverlooksBoolSkip | core/cust_src/elua/lua/src/ldebug.c:374-380 | an accepted prototype whose first step leaves the code: the checker tests C against 1 where the interpreter skips on any other value than 0 |
| VmTop.OpenCallIff | core/cust_src/elua/lua/src/ldebug.c:289-303 | a CALL or TAILCALL with all results and operands in range is accepted exactly if the next word is an instruction whose number of operands depends on the top of the stack |
| VmTop.OpenVarargIff | core/cust_src/elua/lua/src/ldebug.c:463-470 | the same for a VARARG with all arguments |
| VmTop.OpenTopIsRead | core/cust_src/elua/lua/src/lvm.c:601-668 | along every run of an accepted prototype, a top that a step leaves open is read by the next one |
| VmTop.TopIsReadUnopened | core/cust_src/elua/lua/src/ldebug.c:289-303 | an accepted prototype whose first step reads a top that nothing left open: the checker does not ask for the other direction |
| VmTop.ReadsOpenedIff | core/cust_src/elua/lua/src/lvm.c:601-668 | in all runs the top is read only right after it was left open, exactly if the first instruction does not read it and no instruction that can be reached comes to a reader without leaving it open |
| Tables.Table.Get | core/cust_src/elua/lua/src/ltable.c:469-491 | reading array part and hash part is reading one finite map |
| Tables.Table.Set | core/cust_src/elua/lua/src/ltable.c:494-505 | the map changes at the key and nowhere else, across rehashes; it fails exactly as said for nil and NaN, and for another key only if the map has 2^26 entries already, and then nothing changes |
| Tables.Table.NewKey | core/cust_src/elua/lua/src/ltable.c:399-429 | inserting keeps chains, map and free pointer in order; with room in the hash part there is no rehash, and after the one there may be there is room |
| Tables.Table.InsertMoved | core/cust_src/elua/lua/src/ltable.c:413-423 | the search for the predecessor of a colliding node ends, the node moves to the free place and the key takes its own |
| TableChains.PutBehindChained | core/cust_src/elua/lua/src/ltable.c:424-429 | every key stays reachable from its main position when a key is chained in behind the node there |
| TableChains.PutMovedChained | core/cust_src/elua/lua/src/ltable.c:413-423 | every key stays reachable from its main position when a foreign node gives up its place |
| TableChains.PutHomeChained | core/cust_src/elua/lua/src/ltable.c:399-402 | the same when a key takes over a node without a value |
| TableChains.BuriedMeansAbsent | core/cust_src/elua/lua/src/ltable.c:143-154 | a live key comes before all dead entries of its object in the chain, so whoever meets a dead one first knows that the key is absent |
| TableChains.RemainderIsModulo | core/cust_src/elua/lua/src/ltable.c:60-60 | the remainder used for main positions is the remainder of the division |
| Tables.Table.Resize | core/cust_src/elua/lua/src/ltable.c:297-324 | the map survives any change of sizes with room for its keys, each re-insertion finds room, and only a hash part above 2^26 fails, with the array part grown already and the rest as it was |
| Tables.Table.Rehash | core/cust_src/elua/lua/src/ltable.c:333-349 | after a rehash there is room for the new key and the map is the same; on overflow too |
| TableRehash.OverflowMovesNothing | core/cust_src/elua/lua/src/ltable.c:297-324 | when the new hash part would be too large although the array part grows, no key moves, so that growing the array first loses nothing |
| TableRehash.TotalUse | core/cust_src/elua/lua/src/ltable.c:222-260 | the counts of array part and hash part together count each key of the map once |
| TableRehash.HashRoom | core/cust_src/elua/lua/src/ltable.c:333-349 | what the rehash reserves for the hash part is exactly the number of keys that do not fit the array part |
| TableSizes.ComputeSizes | core/cust_src/elua/lua/src/ltable.c:189-208 | given the slice counts, the largest power of two n with more than n/2 of the slots 1..n in use, and the exact number of those keys |
| Tables.Table.NumUseArray | core/cust_src/elua/lua/src/ltable.c:222-244 | the counts of each slice (2^(i-1), 2^i] of the array part |
| Tables.Table.NumUseHash | core/cust_src/elua/lua/src/ltable.c:247-260 | adds the counts of the hash part and the number of its entries |
| Tables.Table.ResizeArray | core/cust_src/elua/lua/src/ltable.c:327-330 | enlarging the array part always succeeds and keeps the map |
| Tables.Table.Allocate | core/cust_src/elua/lua/src/ltable.c:358-371 | a new table has the space asked for and is empty, unless the hash part would be too large |
| Tables.Table.GetN | core/cust_src/elua/lua/src/ltable.c:560-576 | the length is a border: t[n] is not nil or n is 0, and t[n+1] is nil |
| Tables.Table.UnboundSearch | core/cust_src/elua/lua/src/ltable.c:532-553 | doubling, bisection and the linear fallback all end at a border |
| Tables.Table.FindNode | core/cust_src/elua/lua/src/ltable.c:143-154 | one walk along the chain finds the key, or a dead entry of it only if the key is absent |
| Tables.Table.Next | core/cust_src/elua/lua/src/ltable.c:162-179 | the next entry with a value behind the entry of the key, or none if there is none; it never fails for a key in the map |
| Tables.Table.Traverse | core/cust_src/elua/lua/src/ltable.c:162-179 | a whole traversal from nil meets every entry of the map, and none twice |
| Tables.Table.KillEntry | core/cust_src/elua/lua/src/lgc.c:62-66 | when the collector kills the key of an entry without a value, the map and all chains stay as they were |
| Chunks.LoadedIsSame | core/cust_src/elua/lua/src/lundump.c:161-180 | without stripping, the tree that loading a dump gives is the tree dumped exactly if each of its functions has a source |
| Chunks.SourcelessIsChanged | core/cust_src/elua/lua/src/lundump.c:161-180 | a function without a source that can be dumped and comes back with one |
| Chunks.LoadedAccepted | core/cust_src/elua/lua/src/lundump.c:161-180 | what comes back passes the bytecode checker if what went out did, stripped or not |
| Chunks.Stripped | core/cust_src/elua/lua/src/ldump.c:111-141 | stripping takes source and debug information from every function of the tree and nothing else |
| ChunkExample.ChunkOfExample | core/cust_src/elua/lua/src/ldump.c:78-163 | the bytes of the header, and of the chunk of a function with constants of each kind, debug information and a function in it |
| Dump.Zio.Read | core/cust_src/elua/lua/src/lzio.c:58-71 | the next n bytes of the stream, whatever pieces the reader delivers, or how many are missing |
| Dump.Dumper.DumpFunction | core/cust_src/elua/lua/src/ldump.c:129-141 | a writer that accepts everything receives exactly the layout of the tree; after an error nothing more is written |
| Dump.Loader.LoadFunction | core/cust_src/elua/lua/src/lundump.c:161-180 | whatever the stream holds, what is returned passed the checker; if it holds a dumped tree within the nesting limit, that tree comes back and the rest of the stream is left |
| Dump.RoundTrip | core/cust_src/elua/lua/src/lundump.c:195-209 | dumping a checked tree and loading it, over any division of the bytes into pieces, gives the tree, or its stripped form |
| Aes.CbcRoundTrip | core/cust_src/elua/lib/crypto/src/aes.c:490-569 | CBC decryption undoes CBC encryption for every key schedule, initial vector and message of whole blocks |
| Aes.CbcRoundTripBuffers | core/cust_src/elua/lib/crypto/src/aes.c:490-569 | the same for the two buffer routines, with the schedules they expand themselves |
| Aes.InvCipherUndoesCipher | core/cust_src/elua/lib/crypto/src/aes.c:378-426 | InvCipher undoes Cipher for every state, whatever the round keys are |
| Aes.ShiftsRows | core/cust_src/elua/lib/crypto/src/aes.c:243-268 | row r of the state moves r columns to the left, and back in the inverse, section 5.1.2 of FIPS 197 |
| AesField.MixColIsMatrix | core/cust_src/elua/lib/crypto/src/aes.c:271-291 | the column that the sums and xtime calls give is the product with the matrix of section 5.1.3 of FIPS 197 |
| AesField.InvMixColIsMatrix | core/cust_src/elua/lib/crypto/src/aes.c:294-333 | the inverse is the product with the matrix of section 5.3.3 |
| AesField.XtimeIsMul | core/cust_src/elua/lib/crypto/src/aes.c:271-274 | xtime is multiplication by x modulo x^8 + x^4 + x^3 + x + 1 |
| AesField.SboxIsAffineInverse | core/cust_src/elua/lib/crypto/src/aes.c:136-139 | the table entry of a byte is the affine transformation of its inverse in GF(2^8), section 5.1.1, for whatever byte is the inverse |
| AesField.HasInverse | core/cust_src/elua/lib/crypto/src/aes.c:136-139 | every byte but 0 has an inverse |
| AesMix.InvMixUndoesMix | core/cust_src/elua/lib/crypto/src/aes.c:277-333 | the inverse of MixColumns undoes it on every column, by linearity over GF(2^8) |
| AesMix.MixColLinear | core/cust_src/elua/lib/crypto/src/aes.c:277-291 | MixColumns is linear |
| AesTables.RsboxInvertsSbox | core/cust_src/elua/lib/crypto/src/aes.c:136-144 | the two substitution tables invert each other |
| Aes.RconPowers | core/cust_src/elua/lib/crypto/src/aes.c:147-211 | the round constants are the powers of x, section 5.2 of FIPS 197 |
| Aes.ScheduleBytes | core/cust_src/elua/lib/crypto/src/aes.c:147-211 | the key expansion of section 5.2 of FIPS 197 byte by byte: each byte is the one 16 before xored with the one 4 before, substituted and rotated with the power of x added in the first word of a round |
| AesStandard.FirstRound | core/cust_src/elua/lib/crypto/src/aes.c:378-401 | at first the first round key is added |
| AesStandard.MiddleRound | core/cust_src/elua/lib/crypto/src/aes.c:378-401 | rounds 1 to 9, byte by byte: the four bytes that the rows bring to a column are substituted, multiplied with the matrix of section 5.1.3 of FIPS 197, and get the round key of that number |
| AesStandard.LastRound | core/cust_src/elua/lib/crypto/src/aes.c:378-401 | the tenth round has no MixColumns and uses the last round key |
| AesStandard.CbcBlocks | core/cust_src/elua/lib/crypto/src/aes.c:490-527 | the chaining of section 6.2 of SP 800-38A block by block |
| AesStandard.FieldExamples | core/cust_src/elua/lib/crypto/src/aes.c:136-274 | the products and table entries that FIPS 197 gives as examples |
| AesStandard.ColumnExample | core/cust_src/elua/lib/crypto/src/aes.c:277-291 | a mixed column of appendix B of FIPS 197 |
| AesStandard.KeyExample | core/cust_src/elua/lib/crypto/src/aes.c:147-211 | two words of the key expansion in appendix A.1 of FIPS 197 |
| Aes.AesContext.KeyExpansion | core/cust_src/elua/lib/crypto/src/aes.c:147-211 | the expanded key is the key schedule of section 5.2 of FIPS 197, word by word, and each byte of the round keys as that section says |
| Aes.AesContext.EncryptBuffer | core/cust_src/elua/lib/crypto/src/aes.c:490-527 | the output is the CBC encryption of what the input was |
| Aes.AesContext.DecryptBuffer | core/cust_src/elua/lib/crypto/src/aes.c:530-569 | the output is the CBC decryption of the input |
| Sha1.HashChunks | core/cust_src/elua/lib/crypto/src/aliyun_iot_common_sha1.c:308-317 | however a message is cut into updates, the digest is that of FIPS 180-4 for the whole |
| Sha1.Context.Process | core/cust_src/elua/lib/crypto/src/aliyun_iot_common_sha1.c:71-225 | sixteen circular words and five renamed registers compute the 80-word, 80-round definition of section 6.1.2 of FIPS 180-4 |
| Sha1.CircularNext | core/cust_src/elua/lib/crypto/src/aliyun_iot_common_sha1.c:93-99 | the word computed in place is word t of the schedule and the circular array stays the last sixteen |
| Sha1.StepIsRound | core/cust_src/elua/lib/crypto/src/aliyun_iot_common_sha1.c:101-104 | one macro step with the registers renamed is one round of the standard |
| Sha1.Context.Update | core/cust_src/elua/lib/crypto/src/aliyun_iot_common_sha1.c:230-268 | feeding a piece appends its bytes to what was fed, wherever the buffer stood |
| Sha1.Context.Finish | core/cust_src/elua/lib/crypto/src/aliyun_iot_common_sha1.c:278-302 | padding and 64-bit length are those of section 5.1.1 of FIPS 180-4 |
| Sha1.BitLength | core/cust_src/elua/lib/crypto/src/aliyun_iot_common_sha1.c:278-302 | the two halves of the bit count, computed from the byte counters, are those of eight times the length |
| Sha1Example.DigestOfAbc | core/cust_src/elua/lib/crypto/src/aliyun_iot_common_sha1.c:60-317 | the digest of "abc" is the one that FIPS 180-4 gives |
| Sha1Example.KtIsRoot | core/cust_src/elua/lib/crypto/src/aliyun_iot_common_sha1.c:112-216 | the four round constants are the integer parts of 2^30 times the square roots of 2, 3, 5 and 10 |
| Sha1Example.InitialState | core/cust_src/elua/lib/crypto/src/aliyun_iot_common_sha1.c:64-68 | the words of the initial state, their bytes reversed, count up and down in nibbles |
| JsonRoundTrip.RoundTrip | core/cust_src/elua/lib/json/src/lua_cjson.c:751-825 | every value of null, booleans, integers, strings of any bytes, arrays without holes and tables with string keys, up to 1000 of them nested, has a text, and decoding the text gives the same value |
| JsonRoundTrip.ComesBackIff | core/cust_src/elua/lib/json/src/lua_cjson.c:751-825 | of all values that have a text, those that come back as they were are exactly these: no nil at the top, no hole in an array, no number among the keys of an object |
| JsonRoundTrip.SomeAreChanged | core/cust_src/elua/lib/json/src/lua_cjson.c:583-624 | an array with a hole and a table with a number among its keys have texts and come back different |
| JsonRoundTrip.EncodesIff | core/cust_src/elua/lib/json/src/lua_cjson.c:536-792 | a value has a text exactly if no type in it is unsupported, no array is excessively sparse, keys of objects are numbers or strings, and the nesting is within the limit |
| JsonRoundTrip.SparseIff | core/cust_src/elua/lib/json/src/lua_cjson.c:583-624 | an array is refused as too sparse exactly if an index is above 10 and above twice the number of entries, and a table is an array exactly if it has only indices as keys |
| JsonRoundTrip.DecodesEncoded | core/cust_src/elua/lib/json/src/lua_cjson.c:1343-1384 | every text of the encoder is accepted by the decoder, with holes become null and numeric keys of objects become strings |
| JsonTrees.DecodesText | core/cust_src/elua/lib/json/src/lua_cjson.c:1343-1384 | every text of the grammar of RFC 8259 (numbers without fraction and exponent), with white space anywhere, is decoded to what it means, exactly if all its strings mean something and at most 1000 brackets are open at once, and to an error otherwise |
| JsonTrees.ReadsTree | core/cust_src/elua/lib/json/src/lua_cjson.c:1226-1342 | the same inside a text, with what follows left |
| JsonTrees.EncodedMeans | core/cust_src/elua/lib/json/src/lua_cjson.c:751-792 | every text of the encoder is in the grammar and means the image of its value |
| JsonTrees.PlainMeans | core/cust_src/elua/lib/json/src/lua_cjson.c:751-825 | the text of a value that JSON has a notation for means that value |
| JsonTrees.ArrayHolds | core/cust_src/elua/lib/json/src/lua_cjson.c:1277-1312 | an array means a table with the indices 1 to n and nothing else |
| JsonTrees.ObjectHolds | core/cust_src/elua/lib/json/src/lua_cjson.c:1226-1273 | an object means a table with its names as keys, the last of several members of one name counting |
| JsonTrees.ObjectHoldsOnly | core/cust_src/elua/lib/json/src/lua_cjson.c:1226-1273 | and with no other keys |
| JsonTrees.ReadsInteger | core/cust_src/elua/lib/json/src/lua_cjson.c:1087-1099 | an integer of any length is read as what its digits mean in positional notation, or as the nearest number of 32 bits |
| JsonTrees.NumberMeans | core/cust_src/elua/lib/json/src/lua_cjson.c:677-707 | the digits written for a number mean that number |
| JsonTrees.NoFraction | core/cust_src/elua/lib/json/src/lua_cjson.c:1087-1182 | behind the integer part a fraction or exponent is an invalid token |
| JsonTrees.Smallest | core/cust_src/elua/lib/json/src/lua_cjson.c:751-792 | null, true and false byte by byte, read and written |
| JsonTrees.Empty | core/cust_src/elua/lib/json/src/lua_cjson.c:1226-1342 | an empty string, array and object byte by byte, as they are read |
| JsonTrees.MinusTwelve | core/cust_src/elua/lib/json/src/lua_cjson.c:677-707 | minus twelve byte by byte, read and written |
| JsonTrees.Structure | core/cust_src/elua/lib/json/src/lua_cjson.c:496-506 | the six characters of structure |
| JsonGrammar.ReadsChars | core/cust_src/elua/lib/json/src/lua_cjson.c:976-1034 | the characters of every string of the grammar are read as what section 7 of RFC 8259 says that they mean, and refused exactly if half a surrogate pair stands alone |
| JsonGrammar.EscapedMeans | core/cust_src/elua/lib/json/src/lua_cjson.c:553-577 | what is written between the quotes means the bytes that were to be written |
| JsonGrammar.Letters | core/cust_src/elua/lib/json/src/lua_cjson.c:240-277 | the eight escapes of two characters, read and written |
| JsonGrammar.OtherBytes | core/cust_src/elua/lib/json/src/lua_cjson.c:240-277 | every other byte is written as itself, or in six characters if it is a control character |
| JsonGrammar.UnescapedUnit | core/cust_src/elua/lib/json/src/lua_cjson.c:910-965 | which code units stand alone, which make a pair and which are refused |
| JsonGrammar.Utf8Bytes | core/cust_src/elua/lib/json/src/lua_cjson.c:866-900 | the bytes of a code point |
| JsonRoundTrip.ReadsValue | core/cust_src/elua/lib/json/src/lua_cjson.c:1226-1342 | the same inside a text: whatever follows the text of a value, the value is read and what follows is left |
| JsonRoundTrip.EncodedNoZero | core/cust_src/elua/lib/json/src/lua_cjson.c:553-577 | the encoder never writes the zero byte at which the decoder would stop |
| JsonText.ReadsQuoted | core/cust_src/elua/lib/json/src/lua_cjson.c:976-1034 | reading a quoted string gives every byte of it back, whatever follows |
| JsonText.EscapedIsChars | core/cust_src/elua/lib/json/src/lua_cjson.c:553-577 | what stands between the quotes is in the grammar of section 7 of RFC 8259: no bare control character, quote or backslash |
| JsonText.NumberIsInteger | core/cust_src/elua/lib/json/src/lua_cjson.c:677-707 | what is written for a number is in the grammar of section 6 of RFC 8259: no leading zeros |
| JsonText.Utf8IsShortest | core/cust_src/elua/lib/json/src/lua_cjson.c:866-900 | code points of up to 21 bits are written in the shortest form of section 3 of RFC 3629, from which they can be read back |
| JsonText.JoinedIsPair | core/cust_src/elua/lib/json/src/lua_cjson.c:910-965 | two surrogates stand for the code point of section 7 of RFC 8259 |
| JsonText.ReadsNumber | core/cust_src/elua/lib/json/src/lua_cjson.c:1087-1099 | an integer of 32 bits is read back, whatever follows that is no digit |
| Json.Encoder.JsonEncode | core/cust_src/elua/lib/json/src/lua_cjson.c:794-823 | the text of the value, or the error of the first thing that has none |
| Json.Encoder.AppendData | core/cust_src/elua/lib/json/src/lua_cjson.c:751-792 | appends exactly the text of the value to what the buffer held, in whatever order the table is traversed |
| Json.Encoder.AppendString | core/cust_src/elua/lib/json/src/lua_cjson.c:553-577 | appends the quoted string; the room made at the start is enough for the unchecked appends |
| Json.Encoder.ArraySize | core/cust_src/elua/lib/json/src/lua_cjson.c:583-624 | the greatest index if all keys are indices, -1 if one is not, an error if the array is excessively sparse |
| Json.Parser.JsonDecode | core/cust_src/elua/lib/json/src/lua_cjson.c:1343-1384 | computes Decode; the pointer never goes behind the terminating zero and the string buffer is never outgrown |
| Json.Parser.NextToken | core/cust_src/elua/lib/json/src/lua_cjson.c:1105-1182 | the token at the front of the rest of the text, and the rest behind it |
| Json.Parser.NextStringToken | core/cust_src/elua/lib/json/src/lua_cjson.c:976-1034 | the string with its escapes resolved, or what is wrong with it; all appends are unchecked and fit |
| Json.Parser.AppendUnicodeEscape | core/cust_src/elua/lib/json/src/lua_cjson.c:910-965 | one escape or surrogate pair becomes its bytes, no byte behind the end being looked at |
| Strbufs.Strbuf.CalculateNewSize | core/cust_src/elua/lib/json/src/strbuf.c:142-168 | the size doubled as often as needed and no more, so less than twice what is asked for; exact when shrinking |
| Strbufs.Strbuf.Resize | core/cust_src/elua/lib/json/src/strbuf.c:172-188 | a larger block with the same contents |
| Strbufs.Strbuf.AppendString | core/cust_src/elua/lib/json/src/strbuf.c:190-206 | appends the string, growing the block only if it has to |
| Sort.AuxSort | core/cust_src/elua/lua/src/ltablib.c:193-254 | for every strict weak order the range is sorted and rearranged, nothing else is touched, and the recursion is at most one deeper than the logarithm of the length |
| Sort.Partition | core/cust_src/elua/lua/src/ltablib.c:218-238 | both scans stay within the range, so that an invalid order function is never reported, and the range is split at the pivot |
| Sort.SortTable | core/cust_src/elua/lua/src/ltablib.c:256-266 | the elements 1..n are sorted and the same as before |
| Subexpr.RoundTrip | core/cust_src/elua/lua/src/lparser.c:844-869 | reading a printed tree gives it back exactly if its nesting is within the limit, and the error for too many levels otherwise |
| Subexpr.NoneShorter | core/cust_src/elua/lua/src/lparser.c:844-869 | the printer uses as few parentheses as possible: no shorter text is read as the same tree, and the printed one is read whenever another is |
| Subexpr.ReadsPrinted | core/cust_src/elua/lua/src/lparser.c:844-869 | whatever follows a printed tree, it becomes the left operand of the loop |
| Subexpr.Parser.Subexpr | core/cust_src/elua/lua/src/lparser.c:844-869 | the recursive loop computes the parse and returns the first operator it did not treat |
| Subexpr.TokensMean | core/cust_src/elua/lua/src/lparser.c:794-823 | the token tables for operators undo each other, and right priorities are positive and at most the left ones |
| Subexpr.HigherTakesOperand | core/cust_src/elua/lua/src/lparser.c:825-869 | of two operators on different levels (or, and, comparisons, .., sums, products, ^) the one on the higher level takes the operand between them |
| Subexpr.SameLevel | core/cust_src/elua/lua/src/lparser.c:825-869 | operators on one level are grouped to the left, .. and ^ to the right |
| Subexpr.UnaryTakesOperand | core/cust_src/elua/lua/src/lparser.c:838-869 | a unary operator takes its operand before every binary one but ^ |
| Subexpr.OperatorTokens | core/cust_src/elua/lua/src/lparser.c:785-823 | which operator each token is |
| IntQueue.Interrupts.Run | core/cust_src/elua/platform/src/elua_int.c:29-90 | in every interleaving of adds, hook steps, flag changes and handler errors, unless a handler fails with nothing else queued: the hook takes what was accepted, once and in that order, and the hook is set while anything is queued |
| IntQueue.NextKeeps | core/cust_src/elua/platform/src/elua_int.c:29-90 | each event keeps the queue in order; an add never overwrites an occupied slot, not even between emptying a slot and advancing the index |
| IntQueue.RunKeeps | core/cust_src/elua/platform/src/elua_int.c:29-90 | the invariant over whole runs of the shared state |
| IntQueue.FailureStrands | core/cust_src/elua/platform/src/elua_int.c:48-58 | a handler error with nothing queued, a round of the hook, an interrupt and another round leave that interrupt queued with the hook cleared |
| IntQueue.FailureIsReached | core/cust_src/elua/platform/src/elua_int.c:29-90 | from the initial state, one interrupt whose handler fails leads to such a failure, after which the next interrupt is stranded |
| IntQueue.FailureIsHarmlessIff | core/cust_src/elua/platform/src/elua_int.c:48-58 | after an error in a handler no continuation strands an interrupt exactly if something else was queued at that moment |
| IntQueue.Interrupts.Add | core/cust_src/elua/platform/src/elua_int.c:63-90 | an interrupt is refused only if it is out of range, not enabled or the queue is full, and goes to the end otherwise |
| IntQueue.Interrupts.Drain | core/cust_src/elua/platform/src/elua_int.c:29-59 | left to itself the hook empties the queue in order and clears itself |
| IntQueue.Interrupts.SetFlag | core/cust_src/elua/platform/src/elua_int.c:93-97 | enabling one source changes the state of no other |

## Left out

- Gc.Collector.SingleStep: no finalizer is called in the finalize state; it only leads back to the pause.
- Gc.Collector.FullGc: userdata with a `__gc` method are collected like others, without resurrection.
- Gc.Collector.Atomic: userdata with a `__gc` method are not separated and marked for their finalizers.
- Pacing: byte counts, `luaC_step` debts, the shrinking of stacks, buffers and the string table, and when new strings make the table grow.
- Stack slots above the top of a thread are not cleared by the atomic step, because the model's stacks have no such slots.
- GcStores.StackStoreKeepsInv: the slots of a thread are a sequence of fixed length; moving a stack to other memory is not modelled.
- Gc.Collector.SweepList: the object list is a sequence with a position instead of links, so the pointer into the middle of the list is an index.
- Codegen.FuncState.Compile: no literal true, false or nil operands, no folding of constant arithmetic, and no `not` of an expression that ends in a constant; numerals are placed when strings are.
- Codegen.FuncState.GoIfTrue: literal true and false operands have no case.
- Codegen.FuncState.GoIfFalse: literal nil, false and true operands have no case.
- Codegen.FuncState.CodeNot: an operand that ends in a constant, which `codenot` makes a literal false, is left out.
- Codegen.FuncState.CodeArith: no folding of constants; a numeral first operand is placed before the second operand is compiled, where `luaK_infix` waits until after it, which makes a difference only for constants above MAXINDEXRK.
- Calls, indexing, globals, varargs, assignments to anything but a local variable, and statements other than a local assignment and a return.
- Codegen.FuncState.AssignLocal: the bound on the number of instructions is not the least one, and after a failure only the reason is stated.
- Codegen.FuncState.CloseFunc: the rest of the prototype (constants, upvalue names, lines, parameters) is given.
- The optimization of `luaK_nil` and the label before which it must not look (`lasttarget`).
- VmSafety.RunsStayInside: the scratch registers that TFORLOOP uses for its call are not counted as registers of the frame, and calls return to the next instruction.
- VmTop.OpenTopIsRead: a TAILCALL with C other than 0, which the interpreter asserts not to meet, leaves nothing open.
- Codegen.FuncState.CompileFunction: the interpreter on words has the instructions that this code generator emits, and no others.
- JsonTrees.DecodesText: numbers with a fraction or an exponent are no trees; a build with integers refuses them behind the integer part.
- JsonGrammar.ReadsChars: bare control characters, which the grammar does not have and the decoder lets pass in strings.
- The inputs to metamethods, arithmetic and comparison in the virtual machine: they are parameters of the meaning of an expression.
- Metamethods of tables, allocation failure in them, and array parts above 2^26 slots.
- Tables.Table.NewKey: the hash of a key before it is reduced to a position is a parameter.
- A new object at the address of a collected one: dead keys are told apart by identity.
- The tree of prototypes is loaded by recursion over its children instead of a loop that fills an array in place.
- Dump.RoundTrip: sizes of C types and byte order are those of one little-endian machine; numbers are their 32-bit patterns.
- Sort.AuxSort: order functions that are no strict weak order, for which the code may report an error, and Lua errors in an order function.
- Subexpr.RoundTrip: calls, indexing and other suffixes of a primary expression are part of an atom.
- C interrupt handlers, `elua_int_disable_all`, and Lua states other than the one with the hook.
- Aes.AesContext.EncryptBuffer: the static state pointer into the output buffer is a copy that is written back; lengths that are no multiple of 16, a missing initial vector and the ECB routines are left out.
- Aes.AesContext.DecryptBuffer: lengths that are no multiple of 16, a missing initial vector, and one buffer for input and output are left out.
- Aes.CbcRoundTripBuffers: decrypting in place, which the code cannot do because it keeps a pointer to the previous ciphertext block.
- Sha1.Context.Update: pieces are shorter than 2^32 bytes, the range of the counter on the device.
- Json.Encoder.AppendData: numbers that are no 32-bit integers, which only a build without LUA_NUMBER_INTEGRAL has; the settings of the encoder are the defaults.
- Json.Parser.JsonDecode: positions in error messages; `lua_checkstack` always finds room; array indices are unbounded.
- Strbufs.Strbuf.CalculateNewSize: linear growth, which the JSON module does not use.
- Floating-point formatting and parsing, mathematical functions, and the base, io, os, debug and loader libraries.
- The capture of loop variables on `continue` paths, which the parser compiles without closing them.
- The ring buffers, device list, timers, packing, image and character-set libraries, and the platform interface.
