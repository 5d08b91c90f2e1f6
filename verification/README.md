# mslang: a verified model

mslang is a small language implementation in C: a Pratt parser, a single-pass compiler to bytecode, a
stack machine, closures, a mark-and-sweep collector, and hash tables written by hand. This project
models those parts in Dafny and proves what they are for. `dafny verify dfyconfig.toml` checks it.

Code that changes things in place is modelled as classes and methods with loops. Each such method is
proved against a specification on values, and the theorems are about that specification and, through
the methods' contracts, about the objects.

## What is modelled

**Compiler and machine** (`Source`, `CodeGen`, `Machine`, `Stepping`, `ExprCorrect`, `SimpleStmts`,
`StmtCorrect`, `ProgramCorrect`; `Patching`, `Assembly`, `Branches`, `Naming`, `Accept`, `Compiler`,
`EndToEnd`). The source semantics knows bindings, not slots; loops use fuel. The compiler object appends
bytes, patches jump operands later, and keeps locals, scopes and patch lists; it is proved to produce the
code of the generator on values, whose meaning is proved equal to the source's, in both directions: as long
as no `and` or `or` goes on to its right operand, the chunk halts with a result if and only if the source
ends with it. `Accept` says by syntax alone which programs the compiler rejects, and `Naming` which
constants the emitted instructions refer to. What native type slots and native functions do is a parameter
that may fail and may change the heap and the output.

**Where the compiler and the machine disagree** (`Exactness`, `Support`, `Limits`, `Continues`, `Making`).
Documentation calls `and` and `or` short-circuit operators with one value (docs/language/vm.md), but
their code leaves the left operand behind; `continue` does not drop locals of the loop body; an argument
count is cut to a byte, and so is the number of variables a function captures, although 256 are allowed;
a switch forgets jumps beyond 256. The model follows the code. Each case has an
input on which the emitted code goes wrong, and an exact condition, and `Support` says in terms of the
source which programs the translation theorems cover.

**Chunk layout and stack map** (`Bytecode`, `Making`, `Operands`, `Layout`, `Placement`, `StackMap`). Jump
operands, decoding and jump targets, the instructions of variable length that make functions and classes,
and one stack depth for each code offset.

**Closures and scopes** (`Cells`, `Upvalues`, `Closures`; `Lexical`, `Scope`). Open and closed upvalues
against one heap cell for each variable, and the descriptors that lead to variables through nested
functions.

**Hash tables** (`Hashing`, `HashMap`, `HashSet`, `Arithmetic`). Probing, tombstones, growth, and cached
hashes against mathematical maps and sets. The class invariant holds exact counts, distinct keys,
reachability of every live entry from its home slot, and the load factor, which is why the probe loop
ends. The header promises that a new map holds `initCap` pairs before its first resize
(include/mslang/ms_map.h:47-48); the code grows at three quarters, so a map made for 8 pairs grows at the
seventh. The model follows the code.

**Collector** (`Reach`, `Gc`). Marking, the two passes of the sweep, the accounts, allocation, shutdown.

**Calls** (`Binding`, `Calls`, `CallRuns`). Argument binding, the frame pool, and the flags that four
kinds of calls use to share one return path, over arbitrarily nested runs.

**Parser** (`Pratt`, `Grammar`, `Parsing`, `Reading`, `RoundTrip`, `Grouping`, `Recovery`, `Parser`,
`Nulls`). Precedence climbing over the rule table against a grammar, round trips, the grouping of every pair
of operators against an order written down apart from the table, and one family of mutually
recursive methods for expressions, function literals, blocks and statements. An expression that cannot be
read is a null pointer; the code looks at the position of a map key and of the left side of a select case
without a test (src/parser/ms_parse_expr.c:367 and 379, src/parser/ms_parser.c:636 and 645), so on input
such as `{ ) : 1 }` the parser does not come to the end of its input. The model has that outcome, and
says exactly when it happens.

**Arena, slices, ranges, integers** (`Arena`, `Slice`, `Range`, `Ints`, `Overflow`). Integers are
unbounded in `Slice` and `Range`; `Overflow` says exactly when the 64-bit computation is the same.

Clocks, files, the network, `malloc` failure and the addresses of new blocks are left out or parameters.

## Model

| member | source | states |
|---|---|---|
| EndToEnd.ChunkHaltsExactly | src/vm/ms_vm.c:565-871 | for the bytes and constants that the back-patching compiler leaves behind for any exact program, and any run of it in which no `and` or `or` goes on to its right operand: the machine halts with a result (returned value, globals, world, or an error) if and only if some amount of fuel makes the source semantics end with it; so an endless program has an endless run |
| EndToEnd.CompileSource | src/compiler/ms_compiler.c:1590-1629 | the compiler object, run on a new compiler, reports an error exactly for the programs that are not accepted in terms of the source (Accept), and otherwise its byte array and constant pool are the linked image of the program |
| EndToEnd.CompileFunctionSource | src/compiler/ms_compiler.c:489-579 | the same for a function body whose parameters take the first slots; an error as well exactly when two parameters have one name or there are more than 256 |
| Accept.ProgramAcceptedExactly | src/compiler/ms_compiler.c:1590-1629 | which programs the compiler accepts, by their syntax alone: every operator is one of its place; literals have at most 255 elements and classes at most 255 methods; `super` is not called; `break` and `continue` are inside a loop, which has at most 256 of each that are its own; `return` is inside a function; a local needs one of 256 slots and a name its block has not declared, while globals need neither; of the cases without values only the last is looked at |
| Accept.FunctionAcceptedExactly | src/compiler/ms_compiler.c:489-579 | the same for a function body, whose locals may have the names of its parameters |
| Accept.StmtAcceptedExactly | src/compiler/ms_compiler.c:1508-1588 | the same for one statement anywhere, in both directions |
| Accept.ExprAcceptedExactly | src/compiler/ms_compiler.c:800-874 | the same for expressions: the infix operators are the arithmetic, bitwise and comparison operators, the power and indexing |
| Accept.StmtCounted | src/compiler/ms_compiler.c:1088-1122 | in a loop, a statement leaves as many jumps to fill in as it has `break` and `continue` statements outside its own inner loops |
| ProgramCorrect.ProgramHaltsExactly | src/compiler/ms_compiler.c:1508-1588 | halting if and only if the source ends, with the same result, for every exact program over the relative code, as long as no `and` or `or` that is evaluated goes on to its right operand |
| ProgramCorrect.FunctionReturnsExactly | src/compiler/ms_compiler.c:489-579 | the same for a function entered with its arguments on the stack: it returns what its body returns, nil when the body falls off its end |
| ProgramCorrect.ProgramRuns | src/compiler/ms_compiler.c:1590-1629 | for each amount of fuel the number of rounds that brings the machine to the outcome of the source, unless an `and` or `or` goes on to its right operand; after a timeout the machine is still running and has done at least that many rounds |
| ProgramCorrect.FunctionRuns | src/compiler/ms_compiler.c:489-579 | the same for function bodies and arguments |
| ProgramCorrect.StmtClosed | src/compiler/ms_compiler.c:1088-1122 | outside loops accepted code holds no `break` or `continue` hole: every one has been filled by its own loop |
| StmtCorrect.StmtRuns | src/compiler/ms_compiler.c:876-1218 | running the code of any exact statement from any frame ends as the statement means: normally behind its code with the locals and globals of the source state, or at the loop's exit or restart with the stack cut, or by returning or failing; `and` and `or` included wherever the left operand decides |
| StmtCorrect.WhileRuns | src/compiler/ms_compiler.c:1042-1055 | a condition loop, one unit of fuel a round, with `break`, `continue`, returns and errors in its body |
| StmtCorrect.ForeverRuns | src/compiler/ms_compiler.c:1057-1067 | the loop without a condition |
| StmtCorrect.ForInRuns | src/compiler/ms_compiler.c:1006-1040 | the iterator in its nameless slot is asked until it says nil; the loop variable is a new binding each round and both slots are gone afterwards, by exhaustion and by `break` |
| StmtCorrect.SwitchRuns | src/compiler/ms_compiler.c:1124-1186 | the first case with a value equal to the subject (or true, without a subject) runs, the last default otherwise, and the subject is gone in every way out |
| StmtCorrect.IfElseRuns | src/compiler/ms_compiler.c:1493-1506 | exactly one branch runs, chosen by the truth of the condition, and both meet behind the statement |
| StmtCorrect.BlockRuns | src/compiler/ms_compiler.c:1202-1218 | the locals declared in a block are cut off at its end, whichever way it ends |
| SimpleStmts.VarDeclRuns | src/compiler/ms_compiler.c:876-897 | a declaration inside a function leaves the value where the new local is; at top level it makes a global |
| SimpleStmts.AssignRuns | src/compiler/ms_compiler.c:899-929 | an assignment changes the innermost binding of the name or the global, and nothing else |
| SimpleStmts.CompoundRuns | src/compiler/ms_compiler.c:959-973 | `x op= e` means `x = x op e`, with x read before e is evaluated |
| SimpleStmts.DelItemRuns | src/compiler/ms_compiler.c:975-1004 | `del obj[key]` evaluates both and deletes, leaving no value behind |
| SimpleStmts.ReturnRuns | src/compiler/ms_compiler.c:654-665 | the value of the expression, or nil, is what the frame returns |
| SimpleStmts.BreakRuns | src/compiler/ms_compiler.c:1088-1109 | `break` arrives at the loop's exit with exactly the loop's own slots left |
| SimpleStmts.ContinueRuns | src/compiler/ms_compiler.c:1111-1122 | with no local of the body alive, `continue` arrives at the loop's restart with the stack as the next round needs it |
| ExprCorrect.ExprRuns | src/compiler/ms_compiler.c:800-874 | from any stack the code of an expression ends just past itself with exactly one more value, the source value, or fails as the source does; locals and globals as the source has them |
| ExprCorrect.BinaryRuns | src/compiler/ms_compiler.c:194-282 | the left operand is evaluated before the right one and a failure of either is the result |
| ExprCorrect.CallRuns | src/compiler/ms_compiler.c:737-798 | callee, then arguments left to right, then the native function on exactly those values |
| Exactness.ExprExactly | src/vm/ms_vm.c:855-868 | the code of an expression pushes exactly one value if and only if no `and` or `or` in it goes on to its right operand |
| Exactness.AndLeavesTwo | src/compiler/ms_compiler.c:197-210 | `true and nil`: two values are left, one too many |
| Exactness.PlainStaysOn | src/compiler/ms_compiler.c:194-210 | a program without `and` and `or` never goes astray, whatever it computes |
| Exactness.PlainBodyStaysOn | src/compiler/ms_compiler.c:489-579 | the same for a function body |
| Support.ProgramExactInSource | src/compiler/ms_compiler.c:1590-1629 | the static condition of the translation theorems in terms of the source: a program is exact if and only if it makes no functions or classes, and has at most 255 arguments a call, at most 256 values a case and 256 cases a switch, and no local declared in a loop body before a `continue` |
| Support.FunctionExactInSource | src/compiler/ms_compiler.c:489-579 | the same for function bodies, where declarations make locals |
| Support.StmtExactInSource | src/compiler/ms_compiler.c:1508-1588 | the same for one statement anywhere |
| Limits.CallRuns | src/compiler/ms_compiler.c:792-797 | with any number of arguments: what is called is the value the byte count points at, with the arguments above it, and the values below stay on the stack |
| Limits.CallExactly | src/compiler/ms_compiler.c:792-797 | a call pushes exactly one value if and only if it has at most 255 arguments |
| Limits.CallCutsArguments | src/compiler/ms_compiler.c:792-797 | with 256 arguments the last argument is called instead of the function |
| Limits.TestsExactly | src/compiler/ms_compiler.c:1142-1160 | behind the tests of a case that did not match, the stack is as before if and only if the case has at most 256 values |
| Limits.TestLeftBehind | src/compiler/ms_compiler.c:1142-1160 | with 257 values one of them is left on the stack |
| Limits.CaseEndExactly | src/compiler/ms_compiler.c:1165-1171 | behind its body a case leaves the switch if and only if fewer than 256 cases came before it; otherwise the machine goes on at the next case |
| Limits.LateCaseFallsOn | src/compiler/ms_compiler.c:1124-1186 | a function made of a switch of 257 cases that means to return nil, and whose code returns true |
| Continues.ContinueExactly | src/compiler/ms_compiler.c:1111-1122 | for a `continue` behind any statements of the enclosing blocks: it goes back with one slot too many for each local declared on the way, so with the right stack if and only if none is declared there |
| Continues.RoundLeavesLocal | src/compiler/ms_compiler.c:1111-1122 | one round of the body of `while c { var x; c = nil; continue }` on an empty frame leaves x on the stack |
| Continues.ContinueGoesWrong | src/compiler/ms_compiler.c:1111-1122 | a function around such a loop means to return true, and its code returns nil because a local behind the loop is read one slot too low |
| Layout.ProgramWellFormed | src/compiler/ms_disasm.c:151-217 | in the chunk of every accepted program below 2^23 bytes, the variable-length OP_MAKE_FUNC and OP_MAKE_CLASS included, linear decoding meets the end exactly and every jump leads to an instruction boundary inside the chunk, if no function in it captures more than 255 variables |
| Layout.FunctionWellFormed | src/compiler/ms_disasm.c:151-217 | the same for function chunks |
| Layout.StmtLaid | src/compiler/ms_chunk.c:50-81 | the same for the code of a statement put anywhere, given where its `break` and `continue` lead |
| Layout.ClosingKeepsForm | src/compiler/ms_scope.c:39-49 | with OP_CLOSE_UPVALUE in place of OP_POP for captured locals a chunk is as well-formed as before |
| Layout.MakeFuncLaid | src/compiler/ms_compiler.c:570-576 | OP_MAKE_FUNC with its count and pairs is one instruction in a chunk, up to 255 pairs |
| Layout.MakeClassLaid | src/compiler/ms_compiler.c:637-646 | OP_MAKE_CLASS with its count and entries is one instruction in a chunk |
| Making.TakesAllExactly | src/compiler/ms_compiler.c:570-576 | for any descriptors: OP_MAKE_FUNC takes exactly the pairs that were emitted, and decoding goes on just behind them, if and only if there are at most 255 |
| Making.AllLost | src/vm/ms_vm.c:644-671 | with 256 descriptors the count byte is 0: the closure holds nothing, and the 512 descriptor bytes are decoded as instructions |
| Making.MembersReadBack | src/compiler/ms_compiler.c:606-646 | with up to 255 methods, which the compiler checks, OP_MAKE_CLASS is decoded to its end; an entry reads back if and only if both its constants have numbers below 2^16 |
| Making.FuncBytes | src/compiler/ms_compiler.c:570-576 | the bytes of OP_MAKE_FUNC one by one: the constant's number with its highest byte first, the count, and for each descriptor whether it is a local and its index |
| Making.ClassBytes | src/compiler/ms_compiler.c:637-646 | the bytes of OP_MAKE_CLASS one by one: the name's number, the count, the base byte, and for each method its name's number before its function's |
| Bytecode.JumpOperandReadsBack | src/compiler/ms_chunk.c:71-81 | a patched three-byte operand reads back, in the VM and in the disassembler, as the distance to its target |
| Bytecode.SignExtensionsAgree | src/compiler/ms_disasm.c:137-149 | the disassembler's sign test and the VM's shifts give the same signed number for every 24-bit operand |
| Operands.Frame.ReadInstr | src/vm/ms_vm.c:67-77 | reading operands with eval's own macros, opcode by opcode, takes exactly the bytes and gives exactly the operand that the disassembler's format table says |
| Operands.Formats | src/compiler/ms_disasm.c:27-134 | for every opcode eval implements, the table's format is the one eval's reads need |
| StackMap.ProgramKeepsTo | src/vm/ms_vm.c:565-1136 | for every exact program without `and` and `or` there is one depth for each code offset such that in every reachable configuration the stack has the depth of the current offset; where a statement begins or a block ends, it is the number of names alive there |
| StackMap.FunctionKeepsTo | src/vm/ms_vm.c:565-1136 | the same for functions, starting with the arguments |
| StackMap.RunKeeps | src/vm/ms_vm.c:565-871 | a map that passes the static check, instruction by instruction, is kept by every run |
| StackMap.StepKeeps | src/vm/ms_vm.c:565-871 | one instruction leads from the depth of its offset to the depth of the next one, whatever it computes |
| StackMap.ForInMapped | src/compiler/ms_compiler.c:1006-1040 | `break` out of a for-in loop, which pops the iterator, and exhaustion, where the iterator has been popped already, meet at the same depth |
| Compiler.Compiler.CompileExpr | src/compiler/ms_compiler.c:800-874 | emission with back-patching produces the relative code of the expression behind what was there, with its constants behind the others, and an error flag exactly when the source is rejected |
| Compiler.Compiler.CompileShort | src/compiler/ms_compiler.c:197-210 | the jump emitted before the right operand, patched afterwards, leads behind it |
| Compiler.Compiler.CompileCall | src/compiler/ms_compiler.c:737-798 | callee, arguments and the count cut to a byte; `super` outside a method is an error |
| Compiler.Compiler.CompileFunc | src/compiler/ms_compiler.c:522-576 | defaults in order, the prototype's constant, then OP_MAKE_FUNC with its pairs behind a count cut to a byte; in the bytes and the pool at the end, the constant that OP_MAKE_FUNC names is the prototype exactly as far as constants are numbered below 2^24 (Naming) |
| Naming.FuncNamesItsPrototype | src/compiler/ms_compiler.c:570-576 | read from the code as the machine reads it: behind the defaults is OP_MAKE_FUNC, the last constant of the pool is the prototype, the operand is that constant's number if and only if there are at most 2^24 constants, and the captures are taken if and only if there are at most 255 |
| Naming.ClassNamesItsMethods | src/compiler/ms_compiler.c:606-646 | OP_MAKE_CLASS is behind the base, names the class by the last constant if and only if there are at most 2^16 constants, and then each entry's two numbers are those of constants that hold its method's name and function, in order; the base byte says whether there is a base |
| Naming.DeclNamesItsVariable | src/compiler/ms_compiler.c:380-397 | the OP_SET_GLOBAL behind a declaration's value names the constant with the declared name if and only if there are at most 2^24 constants, and a pop follows |
| Naming.DeclSetsItsLocal | src/compiler/ms_compiler.c:380-397 | inside a function the OP_SET_LOCAL behind a declaration's value has the slot of the new local, which has the declared name, and a pop follows |
| Compiler.Compiler.EmitMakeFunc | src/compiler/ms_compiler.c:570-576 | appends exactly those bytes |
| Compiler.Compiler.CompileStmt | src/compiler/ms_compiler.c:1508-1588 | the same refinement for statements, with the local table, the scope depth and the recorded jumps of the loop as the relative code has its names and holes |
| Compiler.Compiler.CompileFuncDecl | src/compiler/ms_compiler.c:581-587 | a function declaration: the closure, and its name bound as a declaration's, which at top level is the name constant that OP_SET_GLOBAL refers to; the errors of both |
| Compiler.Compiler.CompileClassDecl | src/compiler/ms_compiler.c:596-652 | a class declaration: base, methods' prototypes and names, OP_MAKE_CLASS, whose entries refer to exactly these constants, and its name; a 256th method is an error |
| Compiler.Compiler.EmitMakeClass | src/compiler/ms_compiler.c:637-646 | appends exactly the opcode, two counts, and two big-endian numbers for each method |
| Compiler.Compiler.CompileIf | src/compiler/ms_compiler.c:1493-1506 | two jumps patched after their branches equal the relative branch code |
| Compiler.Compiler.CompileFor | src/compiler/ms_compiler.c:1069-1086 | a loop's own patch lists replace those of the enclosing loop and give them back; all its `break`s lead behind it |
| Compiler.Compiler.CompileWhile | src/compiler/ms_compiler.c:1042-1055 | `continue`s lead to the condition |
| Compiler.Compiler.CompileForIn | src/compiler/ms_compiler.c:1006-1040 | `continue`s lead to FOR_ITER; the hidden iterator local is dropped without a pop, the loop variable with one |
| Compiler.Compiler.CompileBreak | src/compiler/ms_compiler.c:1088-1109 | pops down to the loop's base and records a hole; the 257th, and one outside a loop, is an error |
| Compiler.Compiler.CompileContinue | src/compiler/ms_compiler.c:1111-1122 | records a hole without popping; the same two errors |
| Compiler.Compiler.CompileSwitch | src/compiler/ms_compiler.c:1124-1186 | match jumps and end jumps patched at the end equal the relative code, and what exceeds 256 jumps is dropped |
| Compiler.Compiler.CompileBlock | src/compiler/ms_compiler.c:1202-1218 | the scope's locals are popped at the end; after an error the rest of the block is skipped |
| Compiler.Compiler.CompileVarDecl | src/compiler/ms_compiler.c:876-897 | the name becomes visible only behind its initialiser; a clash or a 257th local is an error |
| Compiler.Compiler.CompileAssign | src/compiler/ms_compiler.c:899-929 | the value is computed first and stored in the innermost local of the name or in the global, whose name is one constant |
| Compiler.Compiler.CompileCompound | src/compiler/ms_compiler.c:959-973 | the place is resolved once, so that a global's read and write share one constant |
| Compiler.Compiler.CompileBind | src/compiler/ms_compiler.c:1188-1200 | the loop variable is a new local; a clash or a 257th local is an error and the only one |
| Compiler.Compiler.CompileProgram | src/compiler/ms_compiler.c:1590-1629 | a whole program: error exactly when rejected, otherwise the code and the constants of the program |
| Compiler.Compiler.CompileFunction | src/compiler/ms_compiler.c:489-579 | a function's own compiler: error exactly when parameters or body are rejected |
| Compiler.Compiler.PatchEach | src/compiler/ms_compiler.c:1082-1084 | patching recorded offsets overwrites those operands and nothing else, and grows nothing |
| Compiler.Compiler.ScopeEnd | src/compiler/ms_scope.c:39-49 | one pop for each local of the ending scope, none for others |
| Patching.PatchAllFills | src/compiler/ms_compiler.c:176-192 | patching the recorded offsets of one kind, in order, is the same as filling the relative holes of that kind |
| Patching.FillBoth | src/compiler/ms_compiler.c:1042-1086 | filling `continue`s inside the loop and `break`s behind it gives the code with both filled |
| HashMap.FindSlot | src/runtime/ms_map.c:40-58 | the unbounded probe ends, at the live entry of an equal key if there is one, otherwise at the first tombstone on the way or the first never-used slot |
| HashMap.RoundUpPow2 | src/runtime/ms_map.c:79-85 | the least power of two that is at least n and at least 8 |
| HashMap.Table.Resize | src/runtime/ms_map.c:108-126 | the same contents in a new array without tombstones |
| HashMap.Table.SetHashed | src/runtime/ms_map.c:141-157 | the mathematical map with the key's class updated, the key stored last kept; the load factor, the counts and distinctness hold again (`Valid`), and an overwrite in a table that is not full changes no count |
| HashMap.Table.Set | src/runtime/ms_map.c:159-168 | the same for any key; a key whose type has no hash slot is an error and changes nothing |
| HashMap.Table.Get | src/runtime/ms_map.c:128-136 | the value of the key's class, nil when absent, an error when unhashable |
| HashMap.Table.GetItem | src/runtime/ms_map.c:216-227 | the same, but a missing key is an error |
| HashMap.Table.Del | src/runtime/ms_map.c:170-185 | removes exactly the key's class; an absent key is an error |
| HashMap.Table.Pop | src/runtime/ms_map.c:374-390 | removes and returns, or returns the default |
| HashMap.Table.SetDefault | src/runtime/ms_map.c:427-440 | inserts only when absent and returns the value that is there |
| HashMap.Table.Update | src/runtime/ms_map.c:392-407 | map override by the other map, itself included, although the table may grow while it is read |
| HashMap.Table.Clear | src/runtime/ms_map.c:409-415 | the empty map |
| HashMap.Table.Copy | src/runtime/ms_map.c:417-425 | a new table with the same contents |
| HashMap.Table.Equal | src/runtime/ms_map.c:192-213 | equal size and one-way containment decide equality of the two maps |
| HashMap.Table.Items | src/runtime/ms_map.c:349-372 | each pair once and all of them, as many as `len` says |
| HashMap.Table.ApplyAll | src/runtime/ms_map.c:374-440 | any sequence of sets, reads, deletions, pops, setdefaults, clears and updates with itself answers, and leaves the table, as the mathematical map does |
| Hashing.EqualKeysHashAlike | src/runtime/ms_map.c:22-35 | keys that compare equal (true and 1, false and 0) hash alike, without which probing would miss them |
| Hashing.TuplesHashAlike | src/runtime/ms_tuple.c:76-101 | tuples whose elements compare equal pairwise give the same hash, or fail alike at an element that cannot be hashed |
| Hashing.EqualityIs | src/runtime/ms_map.c:22-35 | equality of keys is an equivalence, and across kinds only `false` and `true` are equal to anything, to 0 and 1 |
| Hashing.HashVectors | src/runtime/ms_map.c:22-35 | known hashes: nil, booleans, integers by their lowest 32 bits, FNV-1a of short strings; no string has the hash 0 |
| Hashing.ProbingPut | src/runtime/ms_map.c:141-157 | writing at the slot found keeps every live key findable from its home slot and keys distinct |
| Hashing.ProbingDrop | src/runtime/ms_map.c:170-185 | so does leaving a tombstone |
| Arithmetic.MaskIsRemainder | src/runtime/ms_map.c:40-58 | for powers of two the mask with capacity minus one is the remainder |
| HashSet.AddHashed | src/runtime/ms_set.c:130-145 | the members plus one class of equal values; the item added stands for its class from then on; the table stays within its load factor |
| HashSet.Remove | src/runtime/ms_set.c:168-183 | removes one class; an absent item is an error |
| HashSet.Discard | src/runtime/ms_set.c:185-199 | removes one class if there, and changes no other slot |
| HashSet.Pop | src/runtime/ms_set.c:463-478 | takes one member out and returns that very member as it was stored, an error exactly for the empty set |
| HashSet.Union | src/runtime/ms_set.c:201-225 | exactly the union, and a class in both is stood for by the second set's member |
| HashSet.Diff | src/runtime/ms_set.c:227-249 | exactly the difference |
| HashSet.SymDiff | src/runtime/ms_set.c:251-283 | exactly the symmetric difference |
| HashSet.Intersect | src/runtime/ms_set.c:285-307 | exactly the intersection, with the first set's members |
| HashSet.IsSubset | src/runtime/ms_set.c:309-324 | decides inclusion of the member sets |
| HashSet.IsProperSubset | src/runtime/ms_set.c:326-328 | decides proper inclusion |
| HashSet.SetEqual | src/runtime/ms_set.c:343-354 | equal length and one-way inclusion decide equality of the member sets |
| HashSet.IsDisjoint | src/runtime/ms_set.c:498-515 | decides disjointness: no member of the first set is in the second |
| HashSet.UpdateWith | src/runtime/ms_set.c:517-531 | in-place union, with itself too, although the table may grow |
| HashSet.IntersectionUpdate | src/runtime/ms_set.c:533-554 | in-place intersection, with itself too |
| HashSet.DifferenceUpdate | src/runtime/ms_set.c:556-577 | in-place difference; with itself it empties the set it is reading |
| HashSet.SymmetricDifferenceUpdate | src/runtime/ms_set.c:579-599 | in-place symmetric difference, self-aliasing included |
| HashSet.FrozenHash | src/runtime/ms_frozenset.c:194-207 | the fold over the slots is a function of the member set alone, so equal frozensets hash alike whatever their layout and history |
| HashSet.XorAllTake | src/runtime/ms_frozenset.c:194-207 | the XOR of mixed hashes does not depend on the order in which members are taken |
| HashSet.FrozenVectors | src/runtime/ms_frozenset.c:194-207 | known values: frozensets of no member, of one that hashes to 0, of 1, and of 1 and 2 |
| Upvalues.Thread.Capture | src/runtime/ms_upvalue.c:8-32 | returns the existing node exactly when the slot is already captured, otherwise links a new one so that the list stays strictly descending without duplicates; the node stands for the cell of that slot |
| Upvalues.Thread.CloseUpvalues | src/runtime/ms_upvalue.c:34-42 | takes exactly the nodes at or above the slot off the list, and no upvalue reads anything else than before |
| Upvalues.Thread.Leave | src/vm/ms_vm.c:1230-1248 | a frame's return closes its variables and cuts the stack; every captured variable keeps its cell |
| Upvalues.Thread.GetUpvalue | src/vm/ms_vm.c:737-741 | an upvalue, open or closed, reads its variable's cell |
| Upvalues.Thread.SetUpvalue | src/vm/ms_vm.c:743-749 | writing through an upvalue writes the cell, which an open upvalue shares with the stack slot |
| Upvalues.Thread.SetLocal | src/vm/ms_vm.c:598-604 | writing a local writes its cell, seen by every closure that captured it |
| Closures.Replay | src/runtime/ms_upvalue.c:8-42 | over every legal run of declarations, drops, local and captured reads and writes, captures, scope closings and returns, the values read are those a heap cell for each variable would give |
| Closures.SharingLasts | src/runtime/ms_upvalue.c:8-42 | two captures of one live variable still share a cell after any further run |
| Closures.WrittenIsRead | src/vm/ms_vm.c:598-604 | in any state a run leads to, writing a local is seen by reads of it and of the captures that share its variable, and by no other read |
| Closures.WrittenThroughIsRead | src/vm/ms_vm.c:743-749 | writing through a capture is seen by all captures of the variable and, while it lives, in its slot, and by no other read |
| Closures.CaptureIsRead | src/runtime/ms_upvalue.c:8-32 | a new capture reads what its variable reads, and no read changes |
| Closures.LeavingKeeps | src/runtime/ms_upvalue.c:34-42 | when slots go, by a drop, a closed scope or a return, the slots below and all captures read as before |
| Closures.RunsInOrder | src/runtime/ms_upvalue.c:8-42 | after every legal run all slots and captures have variables, and no two slots share one |
| Scope.Compiler.ResolveUpvalue | src/compiler/ms_scope.c:96-113 | the descriptor returned leads, through all enclosing functions, to the innermost function's most recent initialised local of that name, which is marked captured; -1 exactly when there is none or descriptors run out; other descriptors lead where they led |
| Scope.Compiler.AddUpvalue | src/compiler/ms_scope.c:115-130 | an equal descriptor is reused, a new one appended, and the 257th refused |
| Scope.Compiler.ResolveLocal | src/compiler/ms_scope.c:78-89 | the most recent local of the name, or -1 when its own initialiser is being compiled |
| Scope.Compiler.DeclareLocal | src/compiler/ms_scope.c:51-76 | -1 exactly when there are 256 locals or the name is taken in this scope; otherwise the next slot, not yet visible |
| Scope.Compiler.MarkInitialized | src/compiler/ms_scope.c:91-94 | the last local becomes visible at the current depth, and nothing else changes |
| Scope.Compiler.End | src/compiler/ms_scope.c:39-49 | one instruction for each local of the ending scope, last declared first: closing for the captured ones, popping for the others |
| Lexical.LeadsApart | src/compiler/ms_scope.c:115-130 | descriptors of one function that are not the same never lead to the same variable, so deduplication never merges two |
| Lexical.ReadsItsVariable | src/vm/ms_vm.c:644-671 | if every closure is made by the frame around it, taking as many descriptors as the emitted count byte says, and no function on the way has more than 255, reading descriptor k at run time reads the cell of the very variable it leads to |
| Lexical.HoldsAllExactly | src/compiler/ms_compiler.c:570-576 | a closure holds all variables its function was compiled with if and only if there are at most 255 of them; with the 256 that resolution allows it holds none |
| Lexical.UsesAllHoldsNothing | src/compiler/ms_compiler.c:570-576 | a function that uses all 256 locals of the one around it passes resolution, and its closure holds nothing |
| Lexical.LocalResolved | src/compiler/ms_scope.c:96-113 | resolution that ends in the next function out |
| Lexical.OuterResolved | src/compiler/ms_scope.c:96-113 | resolution that ends further out, passed on through every function between |
| Lexical.ResolvedMarks | src/compiler/ms_scope.c:96-113 | resolving marks exactly the local that the name stands for as captured, and changes nothing else about any local |
| Gc.Collector.Collect | src/gc/ms_gc.c:104-149 | whatever an element of the registered roots, an element of the stack, the globals field or an entry of the open upvalues refers to survives, and so does everything reached from there by a chain of references; every survivor is at the end of such a chain; survivors are intact, unmarked and in their old order, the others are freed; bytes and counts are again sums over survivors; the threshold is twice the bytes, up to its maximum |
| Gc.Collector.MarkObject | src/gc/ms_gc.c:72-80 | recursive marking ends, adds only what is reachable from the object, and leaves nothing marked with an unmarked successor |
| Gc.Collector.MarkRoots | src/gc/ms_gc.c:82-102 | every object that roots, stack, globals or open upvalues refer to, or that a chain of references from them reaches, is marked, and every marked object is at the end of such a chain |
| Gc.Collector.DestroyUnmarked | src/gc/ms_gc.c:104-127 | bytes and count of the dead, read through their types while every class object is still intact |
| Gc.Collector.CompactAndFree | src/gc/ms_gc.c:129-142 | survivors keep their order at the front and lose their marks, exactly the others are freed |
| Gc.Collector.Alloc | src/gc/ms_gc.c:44-57 | the new object survives the collection it may start, nothing that a chain of references from roots, stack, globals or open upvalues reaches is lost, and the accounts include it |
| Gc.KeptInOrder | src/gc/ms_gc.c:129-142 | the kept objects stand in the list in their old order and none is left out |
| Gc.Collector.Shutdown | src/gc/ms_gc.c:25-42 | every object is destroyed and freed, none before one that looks into it is destroyed |
| Reach.MarksAreReachable | src/gc/ms_gc.c:61-102 | a marked set that holds the roots, is closed under references and holds nothing unreachable is the set of reachable objects |
| Binding.BindPositional | src/runtime/ms_func.c:169-229 | the slots of the frame: arguments, defaults for what is missing, the collectors, nil up to the reserved slots |
| Binding.BoundSlotsAre | src/runtime/ms_func.c:169-229 | these slots one by one: argument i in slot i, the i-th parameter's own default where there is none, the list of the rest in the collector's slot, an empty map in the keyword collector's, nil above |
| Binding.PopDefaults | src/vm/ms_vm.c:649-652 | the defaults array holds the pushed values in reverse |
| Binding.DefaultsInOrder | src/runtime/ms_func.c:157-167 | so each parameter's default, looked up from the end, is the value of its own expression |
| Binding.FindParam | src/runtime/ms_func.c:231-239 | the parameter of that name if there is one, -1 exactly if there is none |
| Binding.BindKeywords | src/runtime/ms_func.c:255-345 | succeeds exactly when the keyword map can be bound, and the slots are a function of the map, not of the table order |
| Binding.KwSlotsAre | src/runtime/ms_func.c:255-345 | these slots one by one: positional arguments first, then the value given by name or else the parameter's own default, the other keywords in the collector's slot, nil above |
| Binding.ExtraIs | src/runtime/ms_func.c:283-302 | the keyword collector gets exactly the keywords that name no parameter, with their values |
| Binding.BindableWhenOneEach | src/runtime/ms_func.c:255-345 | binding is possible if and only if every parameter gets exactly one value by position, keyword or default and no argument is left over without a collector |
| Binding.OrderDoesNotMatter | src/runtime/ms_func.c:283-302 | tables with the same entries in any order bind alike |
| Binding.NoKeywords | src/runtime/ms_func.c:255-345 | with no keywords the keyword path and the positional path agree |
| Calls.Thread.NewFrame | src/runtime/ms_func.c:22-35 | the next pool frame while there is one, with no flag left from an earlier use, and never a frame in use |
| Calls.PoolFree | src/runtime/ms_func.c:22-43 | the frames in use are the pool's prefix, so the next one is free |
| Calls.Thread.CallFunction | src/vm/ms_vm.c:478-511 | a plain call: arguments bound above the callee in a new frame on top with no pending flag, or nothing changed when their number is wrong |
| Calls.Thread.CallSelf | src/vm/ms_vm.c:366-402 | constructor and bound method: self overwrites the callee's slot and is slot 0 |
| Calls.Thread.CallOperator | src/vm/ms_vm.c:412-453 | a method run for an operator, `del` or a for-in loop, with the caller's pending flag set for the last two |
| Calls.Thread.CallKeywords | src/vm/ms_vm.c:1319-1336 | a keyword call that cannot be bound leaves stack and frames untouched |
| Calls.Thread.Return | src/vm/ms_vm.c:1230-1248 | returning the value on top. The stack below the call's base is what it was just before; above it is the value returned for plain, bound and operator calls, slot 0 of the frame for a constructor, nothing for a deletion, and for an iteration the value, or with nil neither it nor the iterator, and the caller has jumped by its offset. The frame is given back and the caller is on top, its pending flags cleared |
| Calls.Thread.ReturnNil | src/vm/ms_vm.c:1250-1270 | falling off a function's end, with nothing above its slots or with something: the same with nil as the value, and slot 0 for a constructor |
| Calls.Thread.Leave | src/vm/ms_vm.c:1230-1270 | the path both share, stated for any result: stack below the base, what is put above it by each kind of call, and the caller's flags and position |
| Calls.ProtocolEnter | src/vm/ms_vm.c:342-453 | entering keeps the protocol that ties every frame's flags to the calls in progress |
| Calls.ProtocolLeave | src/vm/ms_vm.c:550-563 | leaving keeps it: pending flags are cleared where they are consumed |
| CallRuns.EveryCallReturns | src/vm/ms_vm.c:1230-1270 | in every legal run in which a call is over at the end, there is a return that matches it; just behind it the caller's frames are as before the call (but for the jump of a finished iteration), the stack below the call's base is what it was just before the return, and above it is what the kind of the call wants: the value returned, slot 0 of a constructor, nothing, or the iteration's value |
| CallRuns.InsideKeepsBelow | src/vm/ms_vm.c:550-563 | whatever legal events happen inside a call, no frame below it changes, so a pending flag is cleared by the return of the call that set it and by no other |
| CallRuns.ReturnRestores | src/vm/ms_vm.c:1230-1270 | the return that matches a call, after any events inside it, restores the caller's frames and hands back the value returned, slot 0, nothing, or the iteration's value, each above the stack below the call's base |
| CallRuns.CallerRestored | src/vm/ms_vm.c:550-563 | setting a pending flag for a call and consuming it gives back the caller's own flags and slots |
| CallRuns.Play | src/vm/ms_vm.c:342-453 | real frames from the pool, linked and flagged as the code does it, go through any legal run as the state machine says |
| RoundTrip.ParsesExactly | src/parser/ms_parser.c:131-153 | for all tokens: precedence climbing reads a node without an error and stops at a place if and only if the tokens before it spell that node in the grammar of the rule table, and nothing after it would still belong to it; what the table groups how is in the rows of Grouping |
| Grouping.SecondBindsTighter | src/parser/ms_parse_expr.c:629-694 | against an order of the operators that is written down apart from the rule table: if the first operator is on a looser level, or both are powers, `x op1 y op2 z` is `x op1 (y op2 z)`, for operands that are leaves or brackets with any postfix forms |
| Grouping.FirstBindsTighter | src/parser/ms_parse_expr.c:629-694 | in all other cases, a tighter first operator or one of the same level, it is `(x op1 y) op2 z`; the comparison words, `is not` and `not in` included |
| Grouping.OneOperator | src/parser/ms_parse_expr.c:118-132 | `x op y` is the operator its token or tokens stand for, applied to x and y |
| Grouping.SignFirst | src/parser/ms_parse_expr.c:100-113 | `u x op y`: a sign takes a power in and nothing looser, `not` takes everything in from comparisons on |
| Grouping.SignSecond | src/parser/ms_parse_expr.c:100-113 | `x op u y`: behind an operator a prefix operator belongs to the right operand, `not` behind `is` being part of the operator |
| Grouping.SignBetween | src/parser/ms_parse_expr.c:100-113 | `x op1 u y op2 z`: if the prefix operator takes the second operator in, it does so however tight the first one is |
| Grouping.SignOverPostfix | src/parser/ms_parse_expr.c:100-113 | `u x`: a prefix operator takes every postfix form of its operand in |
| Grouping.ReceiveFirst | src/parser/ms_parse_expr.c:615-624 | `<-x op y`: receiving takes a power in and nothing looser |
| Grouping.ConditionalOfOperator | src/parser/ms_parse_expr.c:161-180 | `x op y if k else z` chooses between `x op y` and z, for every operator |
| Grouping.OperatorInTest | src/parser/ms_parse_expr.c:161-180 | `x if k op y else z` tests `k op y` |
| Grouping.OperatorInAlternative | src/parser/ms_parse_expr.c:161-180 | `x if k else y op z` chooses between x and `y op z` |
| Grouping.Postfix | src/parser/ms_parse_expr.c:185-315 | `x.name`, `x++`, `x--` and `x[y]` are the attribute, the increment, the decrement and the index |
| Grouping.Called | src/parser/ms_parse_expr.c:245-303 | `x()` and `x(y)` are calls without and with an argument |
| Grouping.CalledMarked | src/parser/ms_parse_expr.c:245-303 | `x(name = y)`, `x(*y)` and `x(**y)` pass y by name, spread over positions, and spread over names |
| Grouping.Sliced | src/parser/ms_parse_expr.c:199-243 | `x[:]`, `x[y:z]`, `x[y:]` and `x[::z]` have the bounds at their places and null for those that are missing |
| Grouping.Bracketed | src/parser/ms_parse_expr.c:317-455 | `(y)` is y, `(y,)` a tuple, `[y, z]` a list, `{y}` a set and `{y: z}` a map |
| Grouping.Leaves | src/parser/ms_parse_expr.c:31-98 | each literal token and each name is the node it stands for |
| RoundTrip.Unambiguous | src/parser/ms_parse_expr.c:629-694 | no tokens spell two different nodes, or one node with two ends |
| RoundTrip.PrintedParses | src/parser/ms_parser.c:131-153 | printing any syntax tree with parentheses where precedence needs them, and parsing it at any minimum, gives the same tree and stops at the first token below the minimum |
| RoundTrip.ParsedPrints | src/parser/ms_parser.c:131-153 | what was parsed without an error prints to tokens that parse to the same |
| RoundTrip.LeftAssociates | src/parser/ms_parse_expr.c:118-132 | operators of one level group to the left |
| RoundTrip.PowerAssociatesRight | src/parser/ms_parse_expr.c:118-132 | `**` groups to the right |
| RoundTrip.SignOverPower | src/parser/ms_parse_expr.c:100-113 | `-a ** b` is `-(a ** b)` at every minimum |
| RoundTrip.ConditionalsNestRight | src/parser/ms_parse_expr.c:161-180 | `a if k1 else b if k2 else c` is `a if k1 else (b if k2 else c)` |
| Reading.ReadTree | src/parser/ms_parser.c:131-153 | soundness: what a call reads is spelled by a grammar tree that fits its minimum |
| Parsing.Parses | src/parser/ms_parser.c:131-153 | completeness: reading the tokens of a grammar tree brings the climbing loop to where that tree is its left operand |
| Pratt.ParsePrecedence | src/parser/ms_parser.c:131-153 | always takes a token if there is one, never gives one back, never forgets an error, and without a function literal never needs the statement parser; how its result groups is in the rows of Grouping |
| Parser.Parser.ParsePrecedence | src/parser/ms_parser.c:131-153 | the parser object, moving its cursor and appending to lists, reads what the function of the same name reads, or looks into a null pointer where that function says so; a null result comes with an error |
| Parser.Parser.ParseMapOrSetLit | src/parser/ms_parse_expr.c:344-408 | map and set literals likewise, told apart behind the first expression; a key that came back null is looked into behind its value |
| Parser.Parser.ParseFuncLit | src/parser/ms_parse_expr.c:561-577 | a function literal, parameters and block inside an expression, ends, only takes tokens, and forgets neither errors nor what has been looked into |
| Parser.Parser.ParseBlock | src/parser/ms_parser.c:224-247 | a block of statements ends, only takes tokens, and forgets neither errors nor what has been looked into |
| Parser.Parser.ParseStmt | src/parser/ms_parser.c:836-1060 | every statement, well-formed or not, takes at least one token and ends, if only at a null pointer |
| Parser.Parser.ParseProgram | src/parser/ms_parser.c:1062-1082 | on every token sequence: the program is read to its end if and only if no expression that stood before a map's colon or before `:=` or `<-` in a select case came back null |
| Parser.Parser.LookInto | src/parser/ms_parse_expr.c:357-382 | looking at a key's position goes on the record and is the end of parsing if and only if the key is null; the record says of each key, in terms of `Pratt.ParsePrecedence`, whether it was |
| Parser.Parser.ParseSides | src/parser/ms_parser.c:629-650 | if the left side of `:=` or `<-` in a select case is null, its position is looked at behind the right side, and that is the end |
| Nulls.NullExactly | src/parser/ms_parser.c:131-153 | an expression comes back null if and only if its tokens have one of these forms: no prefix rule at the first token; a parenthesis around such an expression with no comma behind it; outside panic mode, a well-formed operand with an empty index or with such an expression as its index |
| Nulls.NullKeyCrashes | src/parser/ms_parse_expr.c:356-371 | a first key of one of these forms before a colon ends the parser behind its value |
| Nulls.LaterNullKeyCrashes | src/parser/ms_parse_expr.c:373-382 | so does a later one, with or without its colon |
| Nulls.NullSideExactly | src/parser/ms_parser.c:629-650 | the same forms decide whether a select case has a null left side |
| Nulls.NoKeyCrashes | src/parser/ms_parse_expr.c:344-371 | `{ ) : 1 }` is such an input |
| Parser.Parser.SyncError | src/parser/ms_parser.c:81-101 | recovery ends panic mode and moves to the first place to resume |
| Recovery.SyncPoint | src/parser/ms_parser.c:81-101 | that place: everything skipped is neither a statement start nor a line end, except a line end skipped last; it is the end, a statement start, or just behind a line end |
| Recovery.SyncTokens | src/parser/ms_parser.c:81-101 | the same by the tokens: the five statement keywords and the function keyword that are resumed at, newline and semicolon that are resumed behind, and the end |
| Arena.Arena.Alloc | src/parser/ms_arena.c:13-51 | for any power of two as alignment: the piece is aligned to 8 and to the alignment and taken from the current block or a new or oversized one; if it ends before the block's end, which it always does when size and alignment together fit a block or the request is large, it lies inside that block and shares no byte with any piece given before; if and only if it does, blocks and pieces are in order again |
| Arena.NewBlockHasRoom | src/parser/ms_arena.c:27-51 | a new block has room wherever it lies if and only if it is an oversized one or size and alignment together fit a standard one; always for alignments up to half a block |
| Arena.NoRoomForLargeAlignment | src/parser/ms_arena.c:27-51 | 8 bytes at an alignment of 65536: a new block need not have room |
| Arena.Arena.FreeAll | src/parser/ms_arena.c:53-63 | no block and no piece is left |
| Slice.Normalize | src/runtime/ms_slice.c:25-58 | over the bounds as they are given, for both signs of the step: an index is visited only if it lies in the sequence, not before the start and before the stop, where a negative bound has the length added, and a missing one is the end it stands for; with step 1 and -1 exactly those indices are visited, so `[0:5]` of three elements is all of them and `[10:]` is empty |
| Slice.CountIsSteps | src/runtime/ms_slice.c:60-65 | the count is the number of loop steps |
| Slice.VisitedAt | src/runtime/ms_slice.c:60-65 | the k-th index visited is start + k * step, and there are exactly those before stop |
| Slice.FillValues | src/runtime/ms_slice.c:71-80 | exactly the visited elements are written, in order, and nothing behind them |
| Range.LenIsLength | src/runtime/ms_range.c:59-67 | the closed formula is the number of elements |
| Range.OneArgument | src/runtime/ms_range.c:20-47 | `range(n)` is the numbers from 0 up to n, an error exactly for anything but an integer |
| Range.TwoArguments | src/runtime/ms_range.c:20-47 | `range(a, b)` is the numbers from a up to b |
| Range.ThreeArguments | src/runtime/ms_range.c:20-47 | `range(a, b, c)` is the numbers a + k * c for as long as they have not come to b; a step of 0 is an error |
| Range.GetItemIndexes | src/runtime/ms_range.c:69-83 | indexing, from the end too, is indexing the element sequence, an error outside it |
| Range.ContainsIsMembership | src/runtime/ms_range.c:85-102 | deciding membership by a remainder decides membership in the element sequence |
| Range.RangeEqIsSameElements | src/runtime/ms_range.c:105-127 | two ranges are equal exactly when their element sequences are |
| Range.Iterator.Next | src/runtime/ms_range.c:143-152 | yields the first remaining element and leaves the rest, nil at the end |
| Range.Drain | src/runtime/ms_range.c:143-152 | asking until nil yields the element sequence in order |
| Overflow.LenFitsExactly | src/runtime/ms_range.c:59-67 | over 64-bit fields, every intermediate of the length is a 64-bit number if and only if distance and step can be added |
| Overflow.LenOverflows | src/runtime/ms_range.c:59-67 | the range from 0 to the largest number with step 1 does not meet that |
| Overflow.GetItemFits | src/runtime/ms_range.c:69-83 | under the same condition every intermediate of indexing fits |
| Overflow.ContainsFits | src/runtime/ms_range.c:85-102 | under the same condition every intermediate of membership fits |
| Overflow.IterationFitsExactly | src/runtime/ms_range.c:143-152 | the positions of an iterator fit if and only if the one behind the last element does |
| Overflow.IterationOverflows | src/runtime/ms_range.c:143-152 | the iterator of range(0, 2^63 - 1, 2) does not meet that |
| Overflow.CountFitsExactly | src/runtime/ms_slice.c:60-65 | between normalised bounds the count's intermediates fit if and only if distance and step can be added |
| Overflow.CountOverflows | src/runtime/ms_slice.c:60-65 | a list of two with the largest step does not meet that |
| Overflow.FillFitsExactly | src/runtime/ms_slice.c:71-80 | the copying loop stays in range if and only if its last step does |
| Overflow.FillOverflows | src/runtime/ms_slice.c:71-80 | copying from the second element of a list of two with the largest step does not meet that |
| Ints.DivModLaw | src/runtime/ms_int.c:74-114 | quotient and remainder are 64-bit, the remainder has the dividend's sign and is smaller than the divisor, and they make up the dividend, modulo 2^64 and exactly unless it is the least number over -1 |
| Ints.Pow | src/runtime/ms_int.c:116-138 | for exponents from 0 on, square and multiply gives the power wrapped to 64 bits |
| Ints.WrapIsCongruent | src/runtime/ms_int.c:116-138 | wrapping changes a number by a multiple of 2^64, and a 64-bit number not at all |

## Left out

Weaker than the code's promise, or conditional:

- ExprCorrect.ExprRuns: assumes that no `and` or `or` goes on to its right operand, because the emitted code is wrong there; Exactness.ExprExactly says what happens then.
- StmtCorrect.StmtRuns: promises nothing from where an evaluated `and` or `or` goes on to its right operand, because the emitted code is wrong there; what one such expression leaves behind is in Exactness.ExprExactly.
- StackMap.ProgramKeepsTo: programs with `and` or `or` are left out; where one goes on to its right operand there is no one depth for the offset behind it.
- Support.ProgramExactInSource: function literals, function declarations and class declarations are compiled and laid out, but have no meaning in the source semantics here, so no program with one is exact.
- RoundTrip.ParsesExactly: speaks of readings without an error and without a function literal on the way; what tree an erroneous reading returns is only tied to the function `Pratt.ParsePrecedence`.
- Parser.Parser.ParsePrecedence: equals the function of the same name unless a function literal has been read; from there on termination, consumption, the error flag and the record of what was looked into are stated.
- Parser.Parser.ParseStmt: the statement's tree is not built, so only consumption, termination, the error flag and the record of what was looked into are stated; the same holds for blocks, parameter lists and the program.
- Nulls.NullExactly: says nothing of expressions with a function literal in front of the place of the error; Parser.Parser.ParseProgram covers those by what was read, not by their tokens.
- Ints.Pow: a negative exponent yields the float power (src/runtime/ms_int.c:119-120), for which the model has `None`, as it has no floats.
- Calls.Thread.Work: a callee may write its callers' slots through open upvalues, so only the depth below the frame is promised to stay.
- HashMap.Table.Resize: capacities are unbounded; the wrap-around of 32-bit products beyond 2^29 slots is not modelled.
- Hashing.EqualKeysHashAlike: an object other than a string stands for all objects equal to it, with the hash its type gives, if any; that equal tuples and frozensets have one hash is Hashing.TuplesHashAlike and HashSet.FrozenHash. Float keys, whose equality with integers is not transitive, and user-defined equality are left out.
- HashSet.FrozenHash: equality of frozensets is equality of members, by HashSet.SetEqual; the frozenset constructors are those of sets and have no rows of their own.
- Gc.Collector.Collect: the roots are those markRoots lists; the closure of the running frame is not among them, and the weak intern table is not modelled.
- Upvalues.Thread.CloseUpvalues: addresses are slot numbers; the walk compares numbers instead of pointers.
- Slice.Normalize: unbounded integers; the normalised bounds of a 64-bit input are 64-bit, and Overflow treats what is computed from them.
- Range.LenIsLength: unbounded integers; Overflow.LenFitsExactly has the 64-bit condition.
- Arena.Arena.Alloc: addresses do not wrap.

Not modelled:

- Opcodes without run-time meaning yet: exceptions, with, go, async, await, select, channels, import, f-strings, deleting globals.
- In compiled programs: calls of user-defined functions and methods that replace native operators (`Calls` models frames; the compiled fragment calls native behaviour), what function literals and class declarations mean, access to captured variables (`Upvalues` has its run-time side), keyword and star arguments, map literals, slices, `super`, and tuple targets.
- The behaviour of named function and class declarations inside a function (the slot is popped after being set), captured for-in variables (popped instead of closed), and methods that capture outer locals: the code is wrong there; only its layout is treated.
- A select case `v := <-ch` whose left side is not a name: the code takes a name out of another kind of node.
- The initialiser and step of a three-part `for`, which the compiler drops.
- Overflow of the value stack: the machine's stack is unbounded.
- Float arithmetic and float literals' values.
- Line tables and disassembly text; only instruction lengths and operands are modelled.
- Text of error messages, source positions, and printing of trees.
- The lexer: parsing starts from a finite token sequence.
- Iterators of maps and sets as objects; iteration over containers that hold nil stops early by design.
- Unordered iteration order, beyond the fact that results do not depend on it.
