# RealTalk, modelled and proved

RealTalk is a small compiler toolchain: a lexer and a parser, a semantic analyzer, a generator of
byte code, linkers for libraries and executables, and a virtual machine that links native functions
before it runs. This project models the toolchain in Dafny and proves that it does what it is for:
**the executable runs as the source was written**, and linking a library first changes nothing.

## How it fits together

Values, arithmetic, casts and native functions are left open (`Language.Prims`): every theorem holds
for all of them. The dynamic semantics of the source (`Semantics`) is an evaluator with fuel that
distinguishes an ill-typed program, the three ways a program can be broken off (a variable used within
its own initializer, a global string read before its definition, a division without a result), and not
enough fuel.

1. **Analysis.** `Analysis` says what the semantic analyzer decides: types, casts, resolved names and,
   for every local, jump and return, the locals alive at that point. `Analyzer` is the visitor itself,
   a class with a stack of scopes and a stack of assignee contexts, proved to decide exactly that.
   `Typing` states types and scopes on the source alone, without the analyzer's tables and its context,
   and proves that the analyzer accepts exactly the well-formed programs.
2. **Code.** `Codegen` is the command list of a program; `Commands` its bytes and the decoder.
   `Generator` is the imperative generator, with a growable buffer, scopes, reference tables and
   back-patched jumps; each visitor is proved to leave the state `Emission.After` describes, and
   `ModuleFacts`, `Acceptance` and `Landing` draw the consequences: the module is well-formed, a lookup of
   a command fails only for a bare function name, every jump lands on a command boundary of its own code.
3. **Running.** `Machine` is the virtual machine's step. `Relation`, `Variables`, `Steps`, `Assigning`
   and `Simulation` relate it to the source; `Correctness` concludes that it halts exactly when the
   program ends, in the same state, and gets stuck exactly when the program is broken off, which
   `SelfReading` and `Readiness` rule out for programs that pass a check before the run. `Storage` bounds
   the storages and says which of these runs overflow. `Meaning` says what the bytes mean that program and
   machine share: truth, slots, integers, operators.
4. **Linking.** `Linking` says what a library and an executable are; `LibLinker`, `ExeLinker` and
   `NativeLinker` are the loops over maps, vectors and bytes that produce them; `Linkability` says module by
   module when they succeed, `LinkCorrectness` and `Associativity` are the theorems about the result.
5. **Together.** `Decoding`, `Pipeline`, `Definitions` and `EndToEnd` carry a program of several files
   through generation, linking and native linking to the machine: `EndToEnd.RunsAsWritten`. `Examples`
   and `Calls` are concrete programs that meet all its requirements, `Bytecode` is one down to its last
   byte, and `Computing` one with the numbers it computes. `Identifiers` counts the commands.
6. **Reading.** `Trees` is the grammar of priorities, `Parsing` the parser as a function, `Parser` the
   parser with its next token and its two stacks. `Completeness` and `Soundness` prove that the parser
   returns exactly the grammatical tree of the tokens, `Levels` that this is the grammar by levels with the
   operators by name, `Errors` that the reported token is the first that does not fit, `Printing` when
   printing and parsing are inverse, `Signs` when the characters of prefix operators are read back.
   `Literals` is the agreement of the lexer's string scan and the escape decoder, `Escapes` what escapes
   stand for.
7. **Storing.** `Buffer` is the growable byte buffer with its cursor; `Formats` and `Files` are the
   module and executable files, whose header is skipped first and filled in last; `Layout` is their layout in
   numbers.

A member that changes state is a method whose contract ties the new state to the old one through a
function; the theorems are lemmas about those functions.

## Where the code decides

- The table of casts (`src/real_talk/semantic/cast_handler.cpp`) takes char to int, long and string and
  int to long and double, but not char to double; the model follows the table.
- `LinkCorrectness.SlotsWrap`: the executable linker's counter of global slots is tested one slot at a
  time, so a global of two slots can step over the limit. `SlotsWithin` says exactly when slots are right.
- `Buffer.GrowTooSmall`: the capacity doubles in 32-bit arithmetic, so growth can come out too small.
  `GrowExact` says exactly when it does.
- `Examples.BareNameHasNoCode`: the analyzer accepts a function's name as a statement, and the generator then
  asks for the unload command of a function, which is an assertion. `EndToEnd.AcceptedCompiles` says that
  an accepted file can be compiled exactly if it has no such statement.
- `Examples.SelfInitSticks`: a local initialized by itself is accepted, and the machine then reads a
  slot that does not exist.
- `Examples.StringSticks`: a global string can be read before it is created, within its own initializer
  or through a function called from a file that is linked earlier (`OrderMatters`); the machine then
  copies a string out of zeroed storage. Other types read as zero there.
- Integer division has no test for zero (`Examples.DivisionSticks`). `Correctness.StuckIffBroken` says that these are the ways the
  machine gets stuck, `NeverStuck` gives conditions under which it does not, and `Storage.BoundedRuns`
  adds the storages' capacity of 1024 slots.
- `Printing.PrintThenParse`: printed expressions, as tokens, parse back to themselves exactly when no
  call or subscript applies to a prefix expression and no subscript to an array allocation by sizes. As
  characters they need more: a minus before a minus prints as `--`, which the lexer reads as a decrement;
  `Signs.SignsRead` says which runs of prefix operators come back.


## Model
| member | source | states |
|---|---|---|
| EndToEnd.RunsAsWritten | src/real_talk/code/simple_code_generator.cpp:2067-2103 | The whole toolchain: files the analyzer accepts, compiled, linked and loaded with their natives, halt exactly when the source program ends, in the state the program left, and get stuck exactly when it is broken off: by using a variable within its own initializer, by reading a global string before its definition, or by a division without a result. |
| EndToEnd.RunsBounded | src/real_talk/vm/data_storage.cpp:317-323 | The same with storages of any capacity: it halts, or is stuck, as the source program does if every state of the run fits, and overflows if and only if some state does not. |
| EndToEnd.AcceptedCompiles | src/real_talk/code/simple_code_generator.cpp:1199-1250 | When an accepted file can be compiled: what the generator requires holds if and only if no statement in it, at the top level or in a function, is a bare function name; in any case no jump is left open at the top level or in a function. |
| EndToEnd.AcceptedExactly | src/real_talk/semantic/simple_semantic_analyzer.cpp:937-1112 | The analyzer accepts a file if and only if it is well-formed: its statements and every function follow the rules of types and scopes, stated on the source alone. |
| EndToEnd.ExecutableLoaded | src/real_talk/vm/simple_vm.cpp:868-897 | The linked and loaded bytes are what the machine theorems assume: all code stands decoded at its place, all names have their slots, addresses and indices. |
| EndToEnd.SlotOf | src/real_talk/linker/exe_linker.cpp:37-55 | A global of the program is one definition of the link; its slot is the sum of the sizes before it, and its own slots still fit 32 bits. |
| Correctness.ProgramRuns | src/real_talk/vm/simple_vm.cpp:868-897 | For every amount of fuel the outcome of the program is matched by a run: the same final state, stuck where it is broken off, at least as many steps for a program still running; no accepted program is ill-typed at run time. |
| Correctness.HaltsIffEnds | src/real_talk/vm/simple_vm.cpp:868-897 | With storages that do not run out, the machine halts if and only if the program ends, and every halted state holds what the program left. |
| Correctness.StuckIffBroken | src/real_talk/vm/simple_vm.cpp:1454-1457 | The machine gets stuck if and only if the program is broken off: a local used within its own initializer, a global string copied out of storage where none was created, or a division without a result. |
| Correctness.NeverStuck | src/real_talk/code/simple_code_generator.cpp:1282-1304 | Conditions checked before the run: no local is mentioned in its own initializer, in link order every global string is defined before anything that reads it or calls a function needing it, and divisors are literals that divide everything. Then every reachable state has a next step or is the end of the program. |
| Readiness.SteadyTop | src/real_talk/vm/string_value.cpp:25-30 | Statements that pass the check never copy a string that is not there and never divide without a result, and leave the globals they define defined for the statements behind them. |
| Storage.BoundedRuns | src/real_talk/vm/data_storage.cpp:317-323 | With storages of any capacity: the machine halts if and only if the program ends and every state of the run fits, with what the program left; it is stuck if and only if the program is broken off and every state fits; it overflows if and only if some state does not fit. |
| Storage.RunInIs | src/real_talk/vm/data_storage.cpp:424-430 | Up to the first state that does not fit, the bounded machine makes the steps of the unbounded one, and then no more. |
| Storage.HeldMore | src/real_talk/vm/data_storage.cpp:317-323 | A long or a double takes two slots on the stack of operands, everything else one. |
| Storage.FitsExactly | src/real_talk/vm/data_storage.cpp:317-323 | In numbers: as many ints fit as there are slots, and half as many longs. |
| Examples.SelfInitSticks | src/real_talk/semantic/simple_semantic_analyzer.cpp:901-909 | `if (true) { int x = x; }` is accepted, compiled, linked and loaded, for all natives and arithmetic, and the machine gets stuck. |
| Examples.StringSticks | src/real_talk/semantic/simple_semantic_analyzer.cpp:901-909 | The same for the top-level statement `string s = s;`: its initializer copies a string that was never created. |
| Examples.OrderMatters | src/real_talk/linker/exe_linker.cpp:153-183 | A file that calls a function of another one, which reads that file's global string, is broken off when it is linked in front of it, and ends when it is linked behind it. |
| Examples.OrderChecked | src/real_talk/linker/exe_linker.cpp:153-183 | The check of `NeverStuck` accepts the second order and rejects the first. |
| Examples.DivisionSticks | src/real_talk/vm/simple_vm.cpp:1827-1831 | `1 / 0;` is accepted, compiled, linked and loaded, for all natives and arithmetic, and the machine gets stuck. |
| Examples.BareNameHasNoCode | src/real_talk/semantic/simple_semantic_analyzer.cpp:886-894 | `f;`, with `f` any function, is accepted and within every limit, and yet a command the generator asks for does not exist. |
| Generator.Unloadable | src/real_talk/code/simple_code_generator.cpp:1247-1248 | What the generator requires of an expression statement excludes a function, whose visit by the unload generator is an assertion. |
| Calls.CallHalts | src/real_talk/code/simple_code_generator.cpp:2067-2103 | `f();` with `void f() { g(); }` and a native `g` meets every requirement of the end-to-end theorems at once, for all natives and arithmetic, and its executable halts. |
| Computing.Computes | src/real_talk/vm/simple_vm.cpp:868-897 | For all numbers x and y below 2^16 and any arithmetic that is right on small ints, a program of two functions, one branching and one looping, ends with the excess d of x over y, or 0, and with d (d + 1) / 2. |
| Computing.MachineComputes | src/real_talk/vm/simple_vm.cpp:868-897 | Every executable of that program halts with these numbers in its globals. |
| Bytecode.SlotModuleIs | src/real_talk/code/simple_code_generator.cpp:1393-1395 | `long a; int b; b = 5;` compiles to these bytes, with all bits set where a name is not linked, to definitions of 2 and 1 slots, and to the placeholders 1, 6 and 16. |
| Bytecode.SlotExecutable | src/real_talk/linker/exe_linker.cpp:37-55 | Linked and loaded, its bytes hold slot 0 for a and slot 2 for b, and three slots are recorded in all. |
| Bytecode.JumpBytes | src/real_talk/code/code.cpp:213-276 | Offsets are signed and counted from the end of the command, backwards ones in two's complement. |
| Examples.PassesCheck | src/real_talk/vm/simple_vm.cpp:1827-1831 | The check of `NeverStuck` accepts a program with a defined string, a division by a literal and an initialized local, whatever the arithmetic. |
| Examples.SoleRuns | src/real_talk/code/simple_code_generator.cpp:2067-2103 | Every accepted and representable file without imports and functions, whose references are its own globals, can be built and loaded: the requirements of the end-to-end theorems are met together. |
| Correctness.StopsOnce | src/real_talk/vm/simple_vm.cpp:877-897 | A run that has come to a stop has exactly one length. |
| Simulation.SimExpr | src/real_talk/code/simple_code_generator.cpp:2367-2548 | Code of an accepted expression: it leaves its typed value on top of the untouched operand stack in a corresponding state, or is stuck or still running exactly as the evaluation is. |
| Simulation.SimTo | src/real_talk/code/simple_code_generator.cpp:2678-2687 | The same with the conversion a parent asks for: the pushed value has the demanded type. |
| Simulation.SimLogic | src/real_talk/code/simple_code_generator.cpp:2424-2454 | Both the short-circuit and the full path of && and || leave one bool; the right operand runs exactly when the left one has not decided. |
| Meaning.BoolMeans | include/real_talk/vm/bool_value.h:8 | True is the byte 1, false the byte 0, and any byte but 0 is true. |
| Meaning.AndMeans | src/real_talk/vm/simple_vm.cpp:2170-2174 | The bool of && is true as a byte if and only if both operands are, and the right one is evaluated only if the left one is true. |
| Meaning.OrMeans | src/real_talk/vm/simple_vm.cpp:2176-2180 | The bool of || is true as a byte if and only if an operand is, and the right one is evaluated only if the left one is false. |
| Meaning.LogicLeaves | src/real_talk/code/simple_code_generator.cpp:2424-2454 | The code of && and || leaves one bool on the untouched stack, which is the conjunction or the disjunction of the operands as bytes. |
| Meaning.LogicCmds | src/real_talk/vm/simple_vm.cpp:2170-2180 | The commands of && and || leave the byte 1 or 0 for the conjunction and the disjunction of the two bytes on top. |
| Meaning.JumpMeans | src/real_talk/vm/simple_vm.cpp:1390-1412 | A plain conditional jump and that of && go on for the byte 0, that of || for any other; only the plain one takes the bool. |
| Meaning.OpCmds | src/real_talk/vm/simple_vm.cpp:1739-1831 | The command of an operator replaces the two values on top by what the arithmetic gives, the right operand being the last one. |
| Meaning.OneCmds | src/real_talk/vm/simple_vm.cpp:1739-1775 | The commands of a prefix operator and of a cast replace the value on top by what the arithmetic gives. |
| Meaning.NativeCmd | src/real_talk/vm/simple_vm.cpp:1772-1780 | A native function gets its arguments in the order of its parameters, and its result replaces them. |
| Meaning.StepCmds | src/real_talk/vm/simple_vm.cpp:740-747 | The command of ++ or -- steps the variable whose address is on top, up or down. |
| Meaning.SlotsFit | src/real_talk/vm/data_storage.cpp:19-36 | With slots of four bytes every value fits the slots of its type and needs all of them; a string takes one. |
| Meaning.NoResultMeans | src/real_talk/vm/simple_vm.cpp:1827-1831 | A division has no result if and only if the divisor is zero, or the quotient of two ints or longs is one beyond the greatest, as numbers. |
| Meaning.Constants | src/real_talk/vm/simple_vm.cpp:1827-1831 | Zero, minus one and the least number, as little-endian bytes in two's complement. |
| Meaning.Ranges | src/real_talk/vm/data_storage.cpp:19-36 | The widths of values, as the number of values that bytes of that width can hold. |
| Meaning.DefaultMeans | src/real_talk/vm/data_storage.cpp:19-36 | A variable that is created without a value is all zeros, in the width of its type. |
| Simulation.SimAssign | src/real_talk/code/simple_code_generator.cpp:2393-2403 | An assignment changes its variable to the converted value and pushes nothing. |
| Simulation.SimPreStep | src/real_talk/code/simple_code_generator.cpp:2529-2548 | A pre-increment or decrement steps its variable and pushes nothing. |
| Simulation.SimArgs | src/real_talk/code/simple_code_generator.cpp:2379-2383 | Arguments are evaluated last to first and lie on the stack so that parameters take them in order. |
| Simulation.SimParams | src/real_talk/code/simple_code_generator.cpp:2285-2287 | Parameters are created in order, each with its own argument. |
| Simulation.SimCall | src/real_talk/code/simple_code_generator.cpp:2379-2391 | A call, of a function or a native, leaves its result and nothing else; globals and world change as the callee changes them. |
| Simulation.SimFunc | src/real_talk/code/simple_code_generator.cpp:2271-2295 | Running a function's bytes is running the function: it returns through a return command of its own, to the caller's position and with the caller's locals. |
| Simulation.SimStmts | src/real_talk/code/simple_code_generator.cpp:2121-2125 | Statements have net effect zero on the operand stack; normal end, break, continue and return arrive where the source goes on, with the locals of that scope. |
| Simulation.SimLocalDef | src/real_talk/code/simple_code_generator.cpp:2129-2153 | A local definition adds one variable of its type, default or initialized. |
| Simulation.SimBlock | src/real_talk/code/simple_code_generator.cpp:2324-2328 | A scope destroys its own variables at its end and nothing else. |
| Simulation.SimIf | src/real_talk/code/simple_code_generator.cpp:2206-2269 | Exactly the branch that the conditions select runs. |
| Simulation.SimWhile | src/real_talk/code/simple_code_generator.cpp:2162-2181 | The loop runs its body as often as the condition holds, for every number of iterations. |
| Simulation.SimJump | src/real_talk/code/simple_code_generator.cpp:2183-2204 | Break and continue destroy the variables of the scopes they leave and arrive at the end, or the start, of the innermost loop. |
| Simulation.SimReturn | src/real_talk/code/simple_code_generator.cpp:2310-2322 | A return destroys all locals of the function and gives its value back. |
| Simulation.SimDestroy | src/real_talk/code/simple_code_generator.cpp:2689-2699 | Destroying a list of types, last first, meets a variable of each type and removes exactly those. |
| Relation.SlotOfLocal | src/real_talk/code/simple_code_generator.cpp:1287-1297 | The slot offset the generator computes for a live local is where that local begins; for one still being initialized it is the end of the storage. |
| Relation.IdAgrees | src/real_talk/semantic/simple_semantic_analyzer.cpp:1385-1414 | The definition an identifier resolves to is the binding the program uses. |
| Relation.AtFill | src/real_talk/code/simple_code_generator.cpp:2650-2665 | Code with filled offsets is code aimed at those targets, wherever it stands. |
| Scoping.LoopFlow | src/real_talk/semantic/simple_semantic_analyzer.cpp:864-884 | What break and continue record is exactly the live locals beyond the loop's depth. |
| Scoping.StmtsGrow | src/real_talk/semantic/simple_semantic_analyzer.cpp:1909-1919 | Statements only add definitions, to the innermost scope only. |
| SelfReading.CalmExpr | src/real_talk/semantic/simple_semantic_analyzer.cpp:903-909 | An expression that mentions no pending variable, run with functions that have no self-referring initializer, never reads one. |
| Steps.StepRead | src/real_talk/code/simple_code_generator.cpp:1282-1360 | The load command of a resolved identifier pushes that variable's value, or sticks on a pending local or a global string that is not set. |
| Assigning.SimStore | src/real_talk/code/simple_code_generator.cpp:2393-2403 | The address and the store write exactly the assigned variable. |
| Assigning.Lvalue | src/real_talk/code/simple_code_generator.cpp:1306-1340 | The address command's address writes the variable the source means, and no other, and unless it is a string reads it too. |
| CodeShape.GenCast | src/real_talk/code/simple_code_generator.cpp:2678-2687 | A cast is the last command of a value's code. |
| Variables.GlobalWrite | src/real_talk/vm/simple_vm.cpp:1700-1704 | Writing a global by its slot keeps every other global. |
| Analyzer.Analyzer.GetLocalVarDefsUpToScope | src/real_talk/semantic/simple_semantic_analyzer.cpp:864-884 | The definitions from the innermost scope out to the nearest scope of the kind, outer ones first, and whether there is one. |
| Scoping.OrderFree | src/real_talk/semantic/simple_semantic_analyzer.cpp:870-878 | If at most one of the scopes walked has definitions, putting them in front of or behind those found before gives the same list. |
| Analyzer.Analyzer.VisitId | src/real_talk/semantic/simple_semantic_analyzer.cpp:1385-1414 | The innermost definition of the name decides; the assignee flag is that of the current context. |
| Analyzer.Analyzer.VisitExpr | src/real_talk/semantic/simple_semantic_analyzer.cpp:1490-1796 | The visitor answers what the analysis of the expression says, error included, and leaves the contexts as they were. |
| Analyzer.Analyzer.VisitAssign | src/real_talk/semantic/simple_semantic_analyzer.cpp:1490-1541 | Only the direct target of an assignment is visited as an assignee; right values and unsupported types are errors. |
| Analyzer.Analyzer.VisitPreExpr | src/real_talk/semantic/simple_semantic_analyzer.cpp:1668-1698 | The operand of a pre-increment or decrement is visited as an assignee and must be a number. |
| Analyzer.Analyzer.ResolveCast | src/real_talk/semantic/simple_semantic_analyzer.cpp:1749-1776 | Both operands get the type they meet at, by at most one cast, if there is such a type. |
| Analyzer.Analyzer.VisitBinaryExpr | src/real_talk/semantic/simple_semantic_analyzer.cpp:1736-1796 | Both operands are resolved to one type that the operator supports, or it is an error. |
| Analyzer.Analyzer.VisitArgs | src/real_talk/semantic/simple_semantic_analyzer.cpp:1437-1487 | Every argument is converted to its parameter's type; a wrong number or type is an error. |
| Analyzer.Analyzer.VisitVarDef | src/real_talk/semantic/simple_semantic_analyzer.cpp:937-970 | A local records the locals alive before it; a duplicate in the same scope is an error and changes nothing. |
| Analyzer.Analyzer.VisitReturn | src/real_talk/semantic/simple_semantic_analyzer.cpp:748-830 | A return records everything to destroy, marks the current scope, and must fit the function's type. |
| Analyzer.Analyzer.VisitControlFlowTransfer | src/real_talk/semantic/simple_semantic_analyzer.cpp:832-862 | Break and continue record the locals up to the loop, or are errors outside one. |
| Analyzer.Analyzer.VisitScope | src/real_talk/semantic/simple_semantic_analyzer.cpp:1909-1919 | Statements in order; the scope's return flag is set exactly when one of them is a return. |
| Analyzer.Analyzer.VisitBlock | src/real_talk/semantic/simple_semantic_analyzer.cpp:1107-1112 | A body's scope is closed behind it and the scopes outside are as before, errors included. |
| Analyzer.Analyzer.VisitFuncDefWithBody | src/real_talk/semantic/simple_semantic_analyzer.cpp:976-1009 | A function is accepted exactly as the analysis says: a value is returned only if a return stands directly in its scope, and otherwise a void function gets a trailing one. |
| Typing.MeansIff | src/real_talk/semantic/simple_semantic_analyzer.cpp:1385-1414 | A name is resolved to the innermost block that has it, to the global otherwise, and to nothing else. |
| Typing.MeetingIff | src/real_talk/semantic/cast_handler.cpp:14-42 | The type two operands meet at is that of one of them, which the other fits by the table of casts. |
| Typing.TakesIff | src/real_talk/semantic/simple_semantic_analyzer.cpp:1736-1796 | The operand types each operator supports and its result type, operator by operator. |
| Typing.ExprIff | src/real_talk/semantic/simple_semantic_analyzer.cpp:1490-1796 | An expression is accepted with a type if and only if the typing rules give it that type. |
| Typing.AddLocalIff | src/real_talk/semantic/simple_semantic_analyzer.cpp:2021-2033 | A definition is refused if and only if its own block has the name already. |
| Typing.StmtIff | src/real_talk/semantic/simple_semantic_analyzer.cpp:748-1112 | A statement is accepted if and only if it is well-formed where it stands, and adds just its own definition. |
| Typing.StmtsIff | src/real_talk/semantic/simple_semantic_analyzer.cpp:1909-1919 | The same for statement lists, each standing behind the definitions before it. |
| Typing.FuncIff | src/real_talk/semantic/simple_semantic_analyzer.cpp:976-1085 | A function is accepted if and only if its parameters differ, its body is well-formed, and a return stands directly in the body if it has a type. |
| Typing.DuplicateInBlock | src/real_talk/semantic/simple_semantic_analyzer.cpp:2021-2033 | In a block a definition is a duplicate if and only if an earlier statement of the same block defines its name, whatever encloses it. |
| Typing.DuplicateInFunc | src/real_talk/semantic/simple_semantic_analyzer.cpp:2021-2033 | In a function's own scope if and only if an earlier statement of it or a parameter has the name. |
| Generator.Generator.Generate | src/real_talk/code/simple_code_generator.cpp:2067-2103 | The module is the encoding of the command list, with main size, definitions and reference tables recorded; the buffer and the maps are empty again. |
| Generator.Generator.VisitStmts | src/real_talk/code/simple_code_generator.cpp:2121-2125 | For statements whose commands exist, so none that unloads a function: the buffer, the open placeholders, the records and the scopes end as emitting the command list leaves them. |
| Generator.Generator.VisitExpr | src/real_talk/code/simple_code_generator.cpp:2367-2548 | The visitor appends exactly the expression's commands. |
| Generator.Generator.VisitLogic | src/real_talk/code/simple_code_generator.cpp:2424-2454 | The short-circuit jump is filled with the offset to the position behind the operator and its cast. |
| Generator.Generator.VisitWhile | src/real_talk/code/simple_code_generator.cpp:2162-2181 | The condition's jump, every break and the jump back hold their final offsets when the loop is done. |
| Generator.Generator.VisitIf | src/real_talk/code/simple_code_generator.cpp:2206-2269 | Each failed condition jumps to the next branch and each branch to the end. |
| Generator.Generator.VisitFunc | src/real_talk/code/simple_code_generator.cpp:2271-2295 | The function's address is recorded where its parameters begin; body, destruction and trailing return follow. |
| Generator.Generator.WriteCurrentCmdOffset | src/real_talk/code/simple_code_generator.cpp:2650-2665 | Every placeholder given is filled with the offset from behind it to the current position, and nothing else changes. |
| Generator.Generator.FillHole | src/real_talk/code/simple_code_generator.cpp:2650-2665 | One placeholder is settled; all other bytes still agree with the final code. |
| Generator.Generator.EmitContinue | src/real_talk/code/simple_code_generator.cpp:2193-2204 | The offset back to the loop's start is written at once. |
| Generator.TransformIdAddresses | src/real_talk/code/simple_code_generator.cpp:2105-2119 | The table lists every id of the map once, with its addresses, in some order. |
| Emission.AfterAppend | src/real_talk/code/simple_code_generator.cpp:2162-2181 | Emitting two command lists one after the other is emitting them joined, offsets, records and placeholders included. |
| Emission.AfterClosed | src/real_talk/code/simple_code_generator.cpp:2271-2295 | Commands without open jumps add only bytes and records. |
| ModuleFacts.RecordedExactly | src/real_talk/code/simple_code_generator.cpp:2105-2119 | The recorded reference addresses are exactly the operands of the commands that name a global, function or native. |
| ModuleFacts.FieldsApart | src/real_talk/code/simple_code_generator.cpp:1282-1360 | Two recorded operands are the same one or do not overlap. |
| ModuleFacts.ModuleWellFormed | src/real_talk/code/simple_code_generator.cpp:2084-2103 | The generator establishes what the linkers rely on: placeholders within one segment, pairwise apart, addresses and sizes in range. |
| Acceptance.ExprSound | src/real_talk/code/simple_code_generator.cpp:2507-2548 | For an accepted expression every command the generator looks up exists, whatever cast its parent asked for. |
| Acceptance.StmtsSound | src/real_talk/code/simple_code_generator.cpp:2155-2329 | For accepted statements every command the generator looks up exists if and only if no statement in the list, however deep, is a bare function name; in any case jumps out of a loop occur only within one, and globals are defined only at the top level. |
| Acceptance.FuncSound | src/real_talk/code/simple_code_generator.cpp:2271-2295 | An accepted function's commands all exist if and only if its body has no statement that is a bare function name; in any case none of its jumps is open and it defines no global. |
| Landing.LandsWhile | src/real_talk/code/simple_code_generator.cpp:2162-2181 | Every jump of a loop lands on the start of a command, or the end, of the loop. |
| Landing.LandsStmts | src/real_talk/code/simple_code_generator.cpp:2162-2329 | Every jump of a statement list lands on a command boundary of that same list. |
| Landing.LandsFunc | src/real_talk/code/simple_code_generator.cpp:2271-2295 | A function's jumps stay within its own code. |
| Landing.JumpShort | src/real_talk/code/simple_code_generator.cpp:2656-2663 | No offset is longer than the code that holds it. |
| Definitions.StmtsDeclare | src/real_talk/code/simple_code_generator.cpp:1362-1405 | The globals a module defines are the variables its top-level statements declare, in order. |
| Definitions.DeclaredTyped | src/real_talk/semantic/simple_semantic_analyzer.cpp:945-947 | And the declarations behind them see them with their types. |
| Commands.DecodeIdOf | src/real_talk/code/cmd_reader.cpp:440-1230 | Every command identifier decodes to its own command. |
| Commands.DecodeEncode | src/real_talk/code/cmd_reader.cpp:440-1250 | Decoding undoes encoding wherever the bytes stand. |
| Identifiers.Enumerated | include/real_talk/code/cmd.h:12-230 | Every command's identifier is its position in the enumeration of commands, counted from one without a gap. |
| CmdReader.GetNextCmd | src/real_talk/code/cmd_reader.cpp:440-1250 | The command at the cursor is read and the cursor stands behind its operand. |
| CmdReader.StreamDecodes | src/real_talk/code/cmd_reader.cpp:1232-1250 | In a stream of encoded commands each one is decoded, as it was written, at its own boundary. |
| Decoding.CmdStands | src/real_talk/linker/exe_linker.cpp:177-190 | After both linkers every command still decodes at its boundary, to the command emitted with only its operand settled. |
| Decoding.OperandStands | src/real_talk/linker/exe_linker.cpp:87-115 | A named operand holds the number its name is linked to. |
| Pipeline.MainsStand | src/real_talk/linker/exe_linker.cpp:153-183 | The main segments of all files stand one behind the other, decoded. |
| Pipeline.FuncStands | src/real_talk/linker/exe_linker.cpp:57-85 | A function's code stands at the address its name is linked to. |
| Associativity.ExeAssociative | src/real_talk/linker/lib_linker.cpp:78-173 | Linking a library first changes nothing: the executable of A, B, C exists if and only if the library of B and the executable through it do, and they are equal. |
| Associativity.LibAssociative | src/real_talk/linker/lib_linker.cpp:78-173 | The same for a library linked within a library. |
| LinkTheorems.LibWellFormed | src/real_talk/linker/lib_linker.cpp:78-173 | The library of well-formed modules is a well-formed module. |
| LinkTheorems.JoinFilled | src/real_talk/linker/exe_linker.cpp:87-115 | Filling the modules and joining them is joining them and filling the result. |
| LinkTheorems.Placing | src/real_talk/linker/base_linker.cpp:37-46 | Within 32 bits a relocated address is the address of the same byte of the same module. |
| LinkCorrectness.BytesTile | src/real_talk/linker/base_linker.cpp:109-121 | Every byte of the executable is a byte of exactly one module, at its place. |
| LinkCorrectness.BytesKept | src/real_talk/linker/base_linker.cpp:109-121 | A byte outside the placeholders is the module's. |
| LinkCorrectness.GlobalRefHolds | src/real_talk/linker/exe_linker.cpp:87-115 | A global's placeholder holds the global's slot. |
| LinkCorrectness.FuncRefHolds | src/real_talk/linker/exe_linker.cpp:87-115 | A function's placeholder holds the address its own code was placed at. |
| LinkCorrectness.FuncDefined | src/real_talk/linker/exe_linker.cpp:95-99 | Every function reference of a linked program has a definition. |
| LinkCorrectness.SlotsWithin | src/real_talk/linker/exe_linker.cpp:42-49 | Slots lie below the recorded total if and only if the total fits 32 bits, although the counter is tested one slot at a time. |
| LinkCorrectness.SlotsTile | src/real_talk/linker/exe_linker.cpp:37-55 | Then every slot below the total belongs to exactly one global. |
| LinkCorrectness.SlotsWrap | src/real_talk/linker/exe_linker.cpp:42-49 | Definitions that pass the test although their total wraps to zero. |
| Linkability.JoinableExactly | src/real_talk/linker/lib_linker.cpp:78-173 | A library can be made if and only if the code of all modules fits 32 bits and no two definitions of a kind, in one module or in two, have the same name. |
| Linkability.LinkableExactly | src/real_talk/linker/exe_linker.cpp:117-198 | An executable can be made if and only if, beyond that, the slots can be counted and every name that a module uses is defined in some module. |
| LinkCorrectness.CountRefuses | src/real_talk/linker/exe_linker.cpp:42-49 | A definition behind exactly 2^32 - 1 slots is refused. |
| LinkCorrectness.CountAccepts | src/real_talk/linker/exe_linker.cpp:42-49 | None is as long as all slots are at most 2^32 - 1. |
| References.SortedUnique | src/real_talk/linker/lib_linker.cpp:150-158 | Sorting gives one list for all arrangements of the same addresses. |
| References.TableInside | src/real_talk/linker/base_linker.cpp:54-88 | Collecting references through a library's table gives the table of all modules at once. |
| Linker.RefTable.Collect | src/real_talk/linker/base_linker.cpp:54-88 | A module's references are added, relocated, behind those collected before. |
| Linker.RefTable.Sort | src/real_talk/linker/exe_linker.cpp:185-190 | The table of everything collected: ids in order of first appearance, addresses sorted. |
| Linker.CollectSlots | src/real_talk/linker/exe_linker.cpp:37-55 | Each global gets the slot behind those before it; a duplicate or a full counter is the reported error. |
| Linker.WriteModule | src/real_talk/linker/base_linker.cpp:109-121 | The module's two segments are written at their two places and nothing else is touched. |
| Linker.FillPlaceholders | src/real_talk/linker/exe_linker.cpp:87-115 | Every placeholder of a numbered id gets its number, only in this module's bytes; otherwise an id without a number is named. |
| Linker.AddSizes | src/real_talk/linker/base_linker.cpp:48-52 | Sizes are added only while they fit 32 bits. |
| Filling.FillBytes | src/real_talk/linker/exe_linker.cpp:87-115 | After filling, each placeholder holds its number and every other byte is as before. |
| LibLinker.Link | src/real_talk/linker/lib_linker.cpp:78-173 | It succeeds exactly on modules without duplicate definitions that fit 32 bits, and gives the joined module; an error names a real cause. |
| ExeLinker.Link | src/real_talk/linker/exe_linker.cpp:117-198 | It succeeds exactly on modules that can be joined with every reference defined, and gives the joined and filled executable; an error names a real cause. |
| ExeLinker.CollectFuncDefs | src/real_talk/linker/exe_linker.cpp:57-85 | Every function definition gets the address it will be placed at. |
| NativeLinker.Link | src/real_talk/vm/simple_native_func_linker.cpp:23-55 | It succeeds exactly when every referenced native is registered; then the used functions are those of the table in order and each placeholder holds its entry's index. |
| NativeLinker.NativeRefHolds | src/real_talk/vm/simple_native_func_linker.cpp:23-55 | After linking natives, a native's placeholder holds an index whose entry is that native. |
| NativeLinker.OthersKept | src/real_talk/vm/simple_native_func_linker.cpp:23-55 | Global and function operands keep what the executable linker put there. |
| NativeLinker.NativeKept | src/real_talk/vm/simple_native_func_linker.cpp:37-50 | Every byte outside native placeholders is as it was. |
| Soundness.ParsesExactly | src/real_talk/parser/simple_parser.cpp:524-536 | Parsing gives a tree up to a token if and only if the tree follows the priority grammar, has exactly the consumed tokens, and the expression does not go on. |
| Soundness.RejectsExactly | src/real_talk/parser/simple_parser.cpp:524-536 | A token is reported as unexpected if and only if no expression stands there. |
| Soundness.OneTree | src/real_talk/parser/simple_parser.cpp:194-216 | No two grammatical trees have the same tokens. |
| Levels.LevelsAre | src/real_talk/parser/simple_parser.cpp:194-216 | The operator table amounts to a grammar by levels, from assignments down to operands, each with its operators by name. |
| Levels.ParsesByLevels | src/real_talk/parser/simple_parser.cpp:524-536 | Parsing gives a tree if and only if it is an assignment of that grammar, has exactly these tokens, and cannot go on. |
| Levels.SampleParses | src/real_talk/parser/simple_parser.cpp:524-1048 | `x = f(a, -b)[0] + new int[n][m]`, token by token, and its tree. |
| Levels.StripKeeps | src/real_talk/parser/simple_parser.cpp:725-800 | The tree that is returned has no parentheses and the same operands in the same order, and a tree without parentheses is returned as it is. |
| Errors.ReportsFirst | src/real_talk/parser/simple_parser.cpp:524-615 | The reported token is the first one with which no expression goes on: all tokens before it begin some expression, and with it they begin none. |
| Errors.ParseAgrees | src/real_talk/parser/simple_parser.cpp:524-536 | The outcome depends on no token behind the one at which the parser stopped. |
| Completeness.ReadsWhole | src/real_talk/parser/simple_parser.cpp:524-536 | Every grammatical tree is what its tokens parse to, wherever no expression goes on behind them. |
| Completeness.Reads | src/real_talk/parser/simple_parser.cpp:538-688 | Reading a tree's tokens leaves its right spine waiting and its last operand current, behind whatever waited before. |
| Completeness.ReduceSpine | src/real_talk/parser/simple_parser.cpp:696-806 | An operator reduces exactly the waiting operators of the tree to its left. |
| Soundness.ReduceSound | src/real_talk/parser/simple_parser.cpp:696-806 | Reduction keeps the tokens and the grammar and leaves only operators that bind more loosely. |
| Parser.Parser.ParseExpr | src/real_talk/parser/simple_parser.cpp:524-536 | The two-stack machine terminates, its assertions hold, and it succeeds exactly when an expression stands at the next token, with the only such tree, parentheses dropped. |
| Parser.Parser.BeforeExprState | src/real_talk/parser/simple_parser.cpp:538-615 | One step before an operand; no operator is ever reduced before a prefix operator. |
| Parser.Parser.AfterExprState | src/real_talk/parser/simple_parser.cpp:617-688 | One step behind an operand: reduce, then push the operator, or end. |
| Parser.ReduceExpr | src/real_talk/parser/simple_parser.cpp:696-806 | The stacks come to stand for the reduced frames; equal priorities always have equal associativity and enough operands are there. |
| Parser.CreateExpr | src/real_talk/parser/simple_parser.cpp:725-800 | Binary, prefix, call and subscript entries take two, one, one and one operands and make their own node. |
| Parser.Parser.ParseCall | src/real_talk/parser/simple_parser.cpp:863-891 | The arguments up to the closing token, in order, or the first token that does not fit. |
| Parser.Parser.ParseSubscript | src/real_talk/parser/simple_parser.cpp:893-909 | The index up to its closing token. |
| Parser.Parser.ParseArrayAlloc | src/real_talk/parser/simple_parser.cpp:953-1048 | An array allocation by values or by as many sizes as follow. |
| Printing.PrintThenParse | include/real_talk/parser/base_binary_expr_node.h:41-46 | As sequences of tokens: parsing what an expression prints always succeeds, and gives the expression back if and only if it has no call or subscript of a prefix expression and no subscript of an allocation by sizes. |
| Signs.SignsRead | src/real_talk/lexer/simple_lexer.cpp:339-356 | As characters, a run of prefix operators is read back as those operators if and only if no minus stands right in front of a minus or a decrement; what follows the run is left untouched. |
| Signs.MinusJoins | include/real_talk/parser/negative_node.h:39-43 | `- -x` is printed as `--x`, which the lexer reads as a decrement. |
| Printing.PrintParses | include/real_talk/parser/call_node.h:77-93 | What the printed tokens parse to otherwise: the prefix operator takes the call or subscript, the allocation the index. |
| Buffer.GrowExact | src/real_talk/code/code.cpp:286-305 | Which growth is which for every request below 2^32: room already, a larger buffer with room for everything, the overflow exception, or a larger buffer without the room; the last exactly under a condition on sizes that no total below 2^31 meets. |
| Buffer.GrowTooSmall | src/real_talk/code/code.cpp:286-305 | A full buffer of 2^31 bytes that is to take 2^30 + 1 more grows to less than it needs. |
| Buffer.Code.EnsureCapacity | src/real_talk/code/code.cpp:286-305 | Unless growth comes out short, reallocation keeps the contents, the cursor and everything else, and fails exactly on overflow. |
| Buffer.Code.Write | src/real_talk/code/code.cpp:198-203 | Bytes overwrite in place and extend only past the end; all others stay. |
| Buffer.Code.Skip | src/real_talk/code/code.cpp:97-100 | The cursor moves, the size grows only past the end, what was there stays. |
| Buffer.Code.ReadU32 | src/real_talk/code/code.cpp:115-121 | The little-endian word at the cursor, which moves behind it. |
| Buffer.Code.MovePosition | src/real_talk/code/code.cpp:81-87 | A relative move that stays inside the code. |
| Bytes.LE32RoundTrip | src/real_talk/code/code.cpp:115-128 | Reading a word undoes writing it. |
| Layout.WordBytes | src/real_talk/code/code.cpp:115-128 | A word is stored with its lowest byte first. |
| Formats.PutEntry | src/real_talk/code/code.cpp:213-276 | A composite is written as its length-prefixed text and its number or addresses, over what was there. |
| Formats.TakeEntry | src/real_talk/code/code.cpp:205-271 | Reading a composite from the position it was written at gives it back and stands behind it. |
| Formats.TakeEntries | src/real_talk/code/simple_module_reader.cpp:44-52 | The loop over a segment stops exactly at its end, with all its entries. |
| Formats.OverwriteTwice | src/real_talk/code/code.cpp:307-317 | Two writes in a row are one write of both. |
| Files.TablesTile | src/real_talk/code/simple_code_container_writer.cpp:65-123 | The header's addresses and sizes tile the file behind the commands without gap or overlap. |
| Files.SegStands | src/real_talk/code/simple_code_container_writer.cpp:65-123 | The k-th table stands where the header says, with the size it says. |
| Layout.ModuleLayout | src/real_talk/code/simple_code_container_writer.cpp:65-123 | In numbers: version at 0, the address 64 and the sizes of the commands at 4, 8 and 12, and address and size of the six tables from 16 on, each of which stands there. |
| Layout.ExeLayout | src/real_talk/code/simple_code_container_writer.cpp:39-63 | The same for executables: version, slots of the globals, the address 36 and the sizes of the commands, and the two tables from 20 on. |
| Layout.DefLayout | src/real_talk/code/code.cpp:213-276 | A name is its length and its bytes, followed for a variable by one byte with its slots, for a function by its address. |
| Layout.RefsLayout | src/real_talk/code/code.cpp:213-276 | A reference is its name, the bytes that its addresses take, and the addresses. |
| Files.WriteModule | src/real_talk/code/simple_code_container_writer.cpp:65-123 | The file is the version, the filled header, the commands and the six tables; every skipped word is overwritten. |
| Files.WriteExe | src/real_talk/code/simple_code_container_writer.cpp:39-63 | The same for executables, with two tables. |
| Files.ReadModule | src/real_talk/code/simple_module_reader.cpp:18-104 | Reading a module file gives the module that is in it. |
| Files.ReadExe | src/real_talk/code/simple_exe_reader.cpp:18-58 | Reading an executable file gives the executable that is in it. |
| Files.SaveAndLoad | src/real_talk/code/simple_code_container_writer.cpp:65-123 | Reading from the start what was written into an empty buffer gives an equal module. |
| Files.SaveAndLoadExe | src/real_talk/code/simple_code_container_writer.cpp:39-63 | The same for executables. |
| Literals.ParseStringToken | src/real_talk/lexer/simple_lexer.cpp:250-288 | The token from the opening quote is a literal whose every backslash has a character behind it; otherwise no literal begins there. |
| Literals.OneEnd | src/real_talk/lexer/simple_lexer.cpp:250-288 | No proper prefix of a literal is a literal. |
| Literals.DoParseString | src/real_talk/semantic/simple_lit_parser.cpp:83-141 | For every token the lexer produces, decoding stays inside the quotes and gives what the escapes stand for, or the error of the first bad hexadecimal escape. |
| Escapes.ReadsBack | src/real_talk/semantic/simple_lit_parser.cpp:83-141 | Every text, written with the escapes of the control characters, the backslash and the quote, is a literal that is decoded to it. |
| Escapes.ReadWritten | src/real_talk/semantic/simple_lit_parser.cpp:83-141 | So the parser of string literals gives back every text that is written so, in either kind of quotes. |
| Escapes.Lettered | src/real_talk/semantic/simple_lit_parser.cpp:97-123 | The code of every lettered escape. |
| Escapes.Unlettered | src/real_talk/semantic/simple_lit_parser.cpp:129-131 | A backslash leaves any other character as it is. |
| Escapes.HexPair | src/real_talk/semantic/simple_lit_parser.cpp:143-179 | Two hexadecimal digits of either case are the character of their number up to 127, and out of range above. |
| Escapes.NoDigit | src/real_talk/semantic/simple_lit_parser.cpp:163-168 | A hexadecimal escape without a digit is an error. |
| Escapes.HexReadsBack | src/real_talk/semantic/simple_lit_parser.cpp:143-179 | Every text of characters up to 127 can be written in hexadecimal escapes and is read back. |
| Literals.ParseHexValue | src/real_talk/semantic/simple_lit_parser.cpp:143-179 | All hexadecimal digits that follow, as one character; none is an error, more than a char holds is another. |
| Literals.ParseChar | src/real_talk/semantic/simple_lit_parser.cpp:71-81 | A char literal is one decoded character, the null character when empty, an error otherwise. |

## Left out
- Arrays in analysis, code and machine: array types, subscripts, allocation and reference counting. The parser has them.
- The language's imports as files, program order across them and reporting of several errors in one program: a program is a list of files with the declarations visible in each, and analysis stops at the first error.
- The node addresses that key the analyzer's results: the visitors return what the code records in a map.
- Values of literals, arithmetic, casts and native functions: parameters of the semantics; a literal's payload is its bytes.
- The virtual machine's storages as raw memory: locals, globals and operands are typed values at slots; popping another type than was pushed is a stuck state, and so is a cell that holds nothing.
- Native functions that throw or push more than their result: a native pops its arguments, changes the world and pushes its result. The stack of frames and the memory of strings have no limit.
- Signed overflow other than in division: what it computes is part of the arithmetic left open.
- Logging, streams, file access, the command-line applications, their configuration and the message printers.
- Statements in the parser, line and column numbers in the lexer, and the lexer's other tokens.
- The order of hash maps: tables of references come in any order the code could produce.
- Correctness.Loaded, EndToEnd.Closed: state that the program is complete, every declaration in use is one of the linked files' and natives are registered; linking with missing definitions is covered by the linkers' own contracts.
- EndToEnd.Representable: literals, slot numbers and the size of a file's code fit their fields, which the generator asserts; its buffer stays below 2^31 bytes.
- EndToEnd.Executable: the slots of all globals fit 32 bits; `LinkCorrectness.SlotsWithin` says that exactly then they are right.
- EndToEnd.Built: files for which the generator has code; `AcceptedCompiles` says that among the accepted ones these are exactly those without a bare function name as a statement.
- Analyzer.Analyzer.GetLocalVarDefsUpToScope: an outer scope's definitions are put in front of an inner one's, which is the order the generator's destruction needs; the code reuses an iterator after inserting through it, which leaves the order to the library. `Scoping.OrderFree` says when the order cannot matter.
- Analyzer.Analyzer.VisitBranch: the if and its else-ifs are one loop.
- Files.WriteModule: the words of the header are written from a list, and a file is written at the end of its buffer while everything stays below 2^31 bytes; a file that outgrows that raises the buffer's overflow.
- Files.WriteExe: the same.
- Files.ReadModule: reads files that hold a module; the code's reads are assertions on anything else.
- LibLinker.Link: when several things are wrong, the error is one of them; which one comes first is not stated.
- ExeLinker.Link: the same.
- NativeLinker.Link: no two ids in use are registered with the same function, which the code asserts.
- Buffer.Code.EnsureCapacity: requires that growth does not come out short, which the code asserts afterwards; `GrowExact` says when it would. `Write` and `Skip` require the same.
- Buffer.Code.Write: the same.
- Buffer.Code.Skip: the same.
- Simulation.SimExpr: expressions without arrays.
- Generator.Generator.VisitExpr: expressions without arrays.
- Analyzer.Analyzer.VisitExpr: expressions without arrays.
- Commands.DecodeIdOf: commands without arrays, and without the cast of char to double, which no table of casts asks for.
- Commands.DecodeEncode: the same commands.
- CmdReader.GetNextCmd: the same commands.
- Correctness.HaltsIffEnds: for storages that do not run out; `Storage.BoundedRuns` is the statement for storages that can.
- Correctness.NeverStuck: a sufficient condition; a division by anything but a literal is not covered, and a name that is also a global string's counts as that string.
- Printing.PrintThenParse: tokens, not the characters they are printed as; of those, `Signs` covers the prefix operators.
- Literals.DoParseString: a char is signed, as on common platforms, so a hexadecimal escape goes up to 127.
- Formats.PutEntry: identifiers are sequences of bytes.
- Meaning.SlotsFit: slots of four bytes, the size of a pointer on the smallest platform the storage's assertions allow; the numbers of slots are the same on every platform.
- Computing.Computes: requires that the arithmetic is right on numbers below 2^31; what it computes beyond them is left open.
