# minivm: interpreter and JavaScript back end, modelled in Dafny

minivm is a small register virtual machine. This project models two parts of it.

- **`vm_run`** executes a bytecode program. It uses an arena of local
  registers, one window per call frame, a stack of frames and a heap of
  immutable arrays that a garbage collector prunes. The model also covers
  the output helpers `vm_putn`, `vm_puts`, `vm_putf` and `vm_print`.
- **The JavaScript back end** of the IR (`vm_ir_be_js`, `vm_ir_be_js_block`
  and `vm_ir_be_js_arg`) writes one JavaScript closure per IR block, using
  a trampoline helper `call`.

The layers are:

- `results.dfy`, `values.dfy`: a `Result` type, the faults, tagged values
  (boolean, number, function entry, array handle) and the heap.
- `bytecode.dfy`: the opcode byte numbering and its decoding. Word operands
  are 4 little-endian bytes read as signed 32-bit integers.
- `printer.dfy`: what `vm_putn`, `vm_putf` and `vm_print` write, as functions.
- `collector.dfy`: what a collection keeps. Exactly the arrays reachable
  from the live registers survive.
- `semantics.dfy`: the machine `State` and one function per handler.
  Each handler keeps the machine invariant `Valid` and never loses output
  or handles (`Extends`). They combine into `Step` and a fuelled `Run`.
- `vm_properties.dfy`: how handlers combine. Covered are calls and returns,
  array creation with the collector, the agreement of the immediate and
  register forms, and the conditional jumps against the compares.
- `machine.dfy`: the class `Vm`. It holds the locals arena and the frame
  stack as arrays that the handlers update in place, like `vm_run`. Every
  method is proved to do what the function of the same handler in
  `Semantics` says.
- `js_ir.dfy`, `js_text.dfy`: the IR the back end reads, and the text each
  template writes. Writing can abort part-way (`__builtin_trap`), and the
  text up to that point is kept.
- `js_writer.dfy`: the class `Writer`. Its output grows by appending, as the
  back end's `fprintf` calls do. Every method is proved to append exactly
  its template's text.
- `js_properties.dfy`: where the back end aborts, the framing of its
  output, blocks with a negative id being skipped, and distinct names for
  distinct registers and blocks.

The model follows the code as written in two places where it is evidently
not what was meant:

- `JUMP_IF_GREATER_NUM` jumps when the register is greater than **or equal
  to** the immediate (`vm/minivm.c:618`). `GREATER_NUM`, and the register
  form of the jump, use `>`. `VmProperties.GreaterNumJumpsOnEqual` shows the
  compare giving `false` while the jump is taken.
- The back end writes `>>` for `BSHL` and `<<` for `BSHR`
  (`vm/ir/be/js.c:239-258`). `JsText.Symbol` keeps that.

## Model

| member | source | states |
|---|---|---|
| Bytecode.Decode | vm/minivm.c:137-194 | an opcode byte has a handler exactly when it is one of the 56 bytes given a label; every other byte is unhandled |
| Bytecode.Encode | vm/minivm.c:137-194 | every operation the interpreter handles has an opcode byte that decodes back to it |
| Bytecode.DecodeEncode | vm/minivm.c:137-194 | decoding a handled byte and encoding the result gives the byte back |
| Bytecode.CmpRoundTrip | vm/minivm.c:368-475 | the twelve compare opcodes are numbered one-to-one by relation and operand form |
| Bytecode.ArithRoundTrip | vm/minivm.c:681-770 | the ten arithmetic opcodes are numbered one-to-one by operation and operand form |
| Bytecode.Signed32 | vm/minivm.c:36-49 | an `int` operand is the 32-bit two's-complement reading of its bits: in range, and congruent to the bits modulo 2^32 |
| Bytecode.ReadInt | vm/minivm.c:36-49 | a word operand reads successfully exactly when its 4 bytes lie inside the code, as a signed 32-bit value; otherwise it is `Truncated` at that position |
| Bytecode.ReadBool | vm/minivm.c:36-46 | a `bool` operand reads exactly when its byte is inside the code and is 0 or 1, and is true exactly for 1 |
| Bytecode.EncodeInt | vm/minivm.c:36-49 | a 32-bit operand occupies 4 bytes |
| Bytecode.EncodeThenRead | vm/minivm.c:36-49 | a signed 32-bit value written little-endian anywhere in the code reads back unchanged |
| Values.Trunc | vm/minivm.c:247-267 | the `(long)` cast of an index truncates toward zero: the result lies within 1 of the number, on the side of 0 |
| Values.AsNum | vm/minivm.c:368-376 | a number is read only from a value tagged as a number, and is its payload |
| Values.AsBool | vm/minivm.c:483-504 | a boolean is read only from a value tagged as a boolean, and is its payload |
| Values.AsFun | vm/minivm.c:268-290 | a function entry is read only from a value tagged as a function, and is its payload |
| Values.AsArray | vm/minivm.c:238-267 | an array handle is read only from a value tagged as an array, and is its payload |
| Collector.Successors | vm/minivm.c:218-224 | the arrays one step from a set of handles are all in the heap |
| Collector.Closure | vm/minivm.c:218-224 | the arrays reachable from the roots contain the roots in the heap and are closed under references |
| Collector.Collect | vm/minivm.c:218-224 | a collection keeps a sub-heap with the same contents and keeps every array a root register refers to; every array an array it keeps refers to is kept too (registers outside the roots may still hold freed handles) |
| Collector.CollectKeepsOrder | vm/minivm.c:218-224 | a collection keeps the heap invariant that arrays only refer to older arrays |
| Collector.CollectKeepsPaths | vm/minivm.c:218-224 | every array reachable from a root register survives a collection |
| Printer.PutNDigits | vm/minivm.c:51-66 | `vm_putn` of a non-negative number writes decimal digits with no leading zero that denote the number |
| Printer.PutNRoundTrip | vm/minivm.c:51-66 | reading back what `vm_putn` writes, with its minus sign, gives the number |
| Printer.PutFIntegral | vm/minivm.c:77-83 | `vm_putf` writes an integral number as `vm_putn` does, and writes nothing for a fractional number |
| Printer.Print | vm/minivm.c:85-120 | booleans print as `true`/`false`, numbers as `vm_putf` does, an array between `[` and `]`; a function value or a freed array is a fault |
| Printer.Renderings | vm/minivm.c:85-120 | the renderings of a sequence of values are one per value, each what that value prints as |
| Printer.PrintFromJoined | vm/minivm.c:105-118 | when the elements from position i >= 1 on print as the given parts, the loop from i writes `", "` followed by those parts joined by `", "` |
| Printer.PrintArrayOf | vm/minivm.c:85-120 | an array whose elements print as the given parts is `[`, those parts joined by `", "`, and `]` |
| Printer.PrintArray | vm/minivm.c:85-120 | an array whose elements all print is `[`, their renderings joined by `", "`, and `]` |
| Printer.PrintFromFault | vm/minivm.c:105-118 | the element loop faults with the fault of the first element from its start on that cannot be printed |
| Printer.PrintArrayFault | vm/minivm.c:85-120 | an array faults with the fault of its first element that cannot be printed |
| Printer.PrintsTrueTwo | vm/minivm.c:85-120 | an array of `true` and 2 prints as `[true, 2]` |
| Printer.PrintNested | vm/minivm.c:85-120 | an array holding 1 and that array prints as `[1, [true, 2]]` |
| Printer.UntilNul | vm/minivm.c:68-75 | `vm_puts` writes a prefix of the string that holds no NUL and stops at the first NUL |
| Semantics.WindowBaseFrom | vm/minivm.c:207-208 | where a frame's window starts depends only on the window sizes of the frames below it |
| Semantics.WindowBaseNonNegative | vm/minivm.c:272 | windows of non-negative size start at a non-negative slot |
| Semantics.Init | vm/minivm.c:122-197 | the machine starts valid at index 0 in function 0, with no arrays, no output and a root window of 256 registers |
| Semantics.Load | vm/minivm.c:334-341 | `cur_locals[reg]` reads exactly when the slot lies in the arena, and gives that slot |
| Semantics.Store | vm/minivm.c:334-341 | writing `cur_locals[reg]` succeeds exactly when the slot lies in the arena, and changes that slot only |
| Semantics.ExecStore | vm/minivm.c:334-357 | `STORE_REG`, `STORE_NUM` and `STORE_LOG` keep the machine invariant and lose no output or handle |
| Semantics.ExecStoreFun | vm/minivm.c:358-367 | `STORE_FUN` succeeds exactly when both operands read and the target slot lies in the arena; it then stores a function value whose entry is just past its two operands, and moves the index to the end operand, changing nothing else |
| Semantics.ExecCompare | vm/minivm.c:368-475 | the twelve compare opcodes keep the machine invariant and lose no output or handle |
| Semantics.ExecArith | vm/minivm.c:681-770 | the ten arithmetic opcodes keep the machine invariant and lose no output or handle |
| Semantics.ExecUpdate | vm/minivm.c:649-680 | `INC`, `DEC` and their immediate forms keep the machine invariant and lose no output or handle |
| Semantics.ExecJump | vm/minivm.c:476-648 | the jumps keep the machine invariant and lose no output or handle |
| Semantics.CopyArgs | vm/minivm.c:273-278 | the argument loop leaves the arena's size unchanged and, when it copies anything, its last slot lies in the arena |
| Semantics.CopyArgsBelow | vm/minivm.c:273-278 | the argument loop copies only handles that were already allocated |
| Semantics.CopyArgsKeepsBelow | vm/minivm.c:273-278 | the argument loop leaves every slot below the new window unchanged |
| Semantics.CopyArgsStops | vm/minivm.c:273-278 | once an argument cannot be read or placed, the loop's fault stands however many arguments remain |
| Semantics.Enter | vm/minivm.c:280-289 | pushing a frame keeps the machine invariant and loses no output or handle |
| Semantics.ExecCall | vm/minivm.c:268-333 | `CALL`, `STATIC_CALL` and `REC` keep the machine invariant and lose no output or handle |
| Semantics.CallWith | vm/minivm.c:268-333 | copying the arguments and entering the callee keeps the machine invariant |
| Semantics.CallInto | vm/minivm.c:279-289 | saving the caller and entering the callee keeps the machine invariant |
| Semantics.ExecReturn | vm/minivm.c:205-217 | `RETURN` keeps the machine invariant and loses no output or handle |
| Semantics.Collected | vm/minivm.c:220-224 | a collection at an allocation keeps the machine invariant |
| Semantics.Prepared | vm/minivm.c:220-224 | the collection step before an allocation keeps the machine invariant and changes neither the registers nor the output |
| Semantics.Gather | vm/minivm.c:228-233 | the element loop of `ARRAY` reads one value per element, each an already allocated handle or a plain value |
| Semantics.GatherStops | vm/minivm.c:228-233 | once an element cannot be read, the loop's fault stands however many elements remain |
| Semantics.ExecArray | vm/minivm.c:218-237 | `ARRAY` keeps the machine invariant and loses no output or handle |
| Semantics.Allocate | vm/minivm.c:225-236 | allocating and filling the new array keeps the machine invariant |
| Semantics.ExecLength | vm/minivm.c:238-246 | `LENGTH` keeps the machine invariant and loses no output or handle |
| Semantics.ExecIndex | vm/minivm.c:247-267 | `INDEX` and `INDEX_NUM` keep the machine invariant and lose no output or handle |
| Semantics.ExecPrintln | vm/minivm.c:771-779 | `PRINTLN` keeps the machine invariant and only appends to the output |
| Semantics.ExecPutchar | vm/minivm.c:780-787 | `PUTCHAR` keeps the machine invariant and only appends to the output |
| Semantics.ExecOp | vm/minivm.c:137-194 | dispatching any handled opcode but `EXIT` keeps the machine invariant |
| Semantics.Step | vm/minivm.c:21-36 | one fetch-and-dispatch step that does not fault leaves a valid machine that extends the old one |
| Semantics.Continue | vm/minivm.c:196-197 | the dispatch loop keeps the machine valid, and a machine still standing extends the one it started from |
| VmProperties.CopyArgsPlacement | vm/minivm.c:273-278 | argument k lands in slot k of the new window with the caller's value, and no other slot changes |
| VmProperties.CallPushesFrame | vm/minivm.c:268-333 | a call saves the resume index, function and out register in the caller's frame, pushes one frame whose window starts after the caller's, reads its size from the callee's entry word, and enters the callee named by the register, the location or the current function |
| VmProperties.CallCopies | vm/minivm.c:268-333 | the arena after a call is what the argument loop produces |
| VmProperties.CallBase | vm/minivm.c:272 | the callee's window starts right after the caller's |
| VmProperties.ArgumentsInWindow | vm/minivm.c:273-278 | after the argument loop, register k of the new window holds the caller's k-th argument register |
| VmProperties.CallPlacesArguments | vm/minivm.c:268-333 | inside the callee, register k holds the caller's k-th argument |
| VmProperties.ReturnPopsFrame | vm/minivm.c:205-217 | `RETURN` pops one frame, restores the caller's window, function and index, and stores the value in the caller's out register |
| VmProperties.CallThenReturn | vm/minivm.c:205-333 | a return from the frame a call pushed resumes the caller after the call's operands, with the result in the out register and nothing else in the arena changed |
| VmProperties.CallReturnRestoresCaller | vm/minivm.c:205-333 | if the callee leaves the windows below its own as the call found them, its `RETURN` gives the caller back every register of its own and lower windows as it was before the call, except the out register, which holds the returned value |
| VmProperties.CallEntersFunction | vm/minivm.c:268-289 | `CALL` through a register holding a function value enters that function past its size word, one frame deeper |
| VmProperties.StoreFunThenCall | vm/minivm.c:268-367 | after `STORE_FUN`, a `CALL` through the same register enters the code just past the `STORE_FUN` operands, and `STORE_FUN` itself resumes at its end operand |
| VmProperties.ReturnAtRoot | vm/minivm.c:205-217 | `RETURN` in the root frame is a frame underflow |
| VmProperties.GatherContents | vm/minivm.c:228-233 | element k of a new array is the value of the k-th listed register |
| VmProperties.ArrayAllocates | vm/minivm.c:218-237 | `ARRAY` stores a fresh handle in the out register; the new array holds the listed registers' values in order, and execution resumes after the operands |
| VmProperties.ArrayExtendsPrepared | vm/minivm.c:218-237 | after `ARRAY`, the heap is the heap after the collection step plus the new array |
| VmProperties.ArrayCollects | vm/minivm.c:218-237 | when the heap is full, `ARRAY` collects with the live windows as roots, resets the threshold to 2 + 8 × live arrays and records the top of the live windows; otherwise it only adds the new array |
| VmProperties.PreparedRule | vm/minivm.c:218-237 | any state with the collected heap plus one new array has that threshold and the roots' arrays |
| VmProperties.KeptRoots | vm/minivm.c:220-224 | adding the new array to a collected heap keeps every root's array and grows the heap by one |
| VmProperties.ArrayThenLength | vm/minivm.c:218-246 | the length of a new array is the number of registers listed |
| VmProperties.ArrayThenIndex | vm/minivm.c:218-267 | indexing a new array in range gives the listed register's value; out of range is an index fault |
| VmProperties.JumpIfMatchesCompare | vm/minivm.c:368-648 | each `JUMP_IF_<relation>` opcode, in both forms, except `JUMP_IF_GREATER_NUM`, is taken exactly when the matching compare yields true, and changes nothing but the index |
| VmProperties.JumpAlwaysMoves | vm/minivm.c:476-482 | `JUMP` moves to its target and changes nothing else |
| VmProperties.JumpOnBoolean | vm/minivm.c:483-504 | `JUMP_IF_FALSE` jumps exactly when the register holds false and `JUMP_IF_TRUE` exactly when it holds true, otherwise both go on past their two operands; a register holding no boolean is a fault |
| VmProperties.GreaterNumJumps | vm/minivm.c:613-624 | `JUMP_IF_GREATER_NUM` jumps exactly when the register's number is at least the literal, otherwise it goes on past its three operands |
| VmProperties.IndexReads | vm/minivm.c:247-267 | `INDEX_NUM` reads the element at the literal and `INDEX` the element at the register's number truncated toward zero, into the out register, resuming past three operands; an index outside the array is an index fault naming the array and the index |
| VmProperties.GreaterNumJumpsOnEqual | vm/minivm.c:431-439 | on equal operands `GREATER_NUM` yields false but `JUMP_IF_GREATER_NUM` (613-624) jumps |
| VmProperties.RhsForms | vm/minivm.c:368-385 | an immediate operand and a register holding the same integer give the same right-hand side |
| VmProperties.CompareFormsAgree | vm/minivm.c:368-475 | each compare gives the same result in its register and its immediate form |
| VmProperties.ArithFormsAgree | vm/minivm.c:681-770 | each arithmetic opcode gives the same result in its register and its immediate form |
| VmProperties.UpdateFormsAgree | vm/minivm.c:649-680 | `INC`/`DEC` give the same result in their register and their immediate form |
| VmProperties.JumpFormsAgree | vm/minivm.c:505-648 | each conditional jump other than greater-than gives the same result in both forms |
| VmProperties.StepRunsEncoded | vm/minivm.c:21-36 | a step on an encoded opcode runs that opcode's handler; `EXIT` halts |
| Machine.PrintFromStep | vm/minivm.c:105-118 | the rest of an array prints as its next element, after `", "` unless it is first, followed by the rest; a fault in the element stands |
| Machine.ContinueStops | vm/minivm.c:198-204 | with no fuel left, or once halted or faulted, the dispatch loop is done |
| Machine.ContinueStep | vm/minivm.c:196-197 | the loop from a running machine is one step followed by the loop from what that step reports |
| Machine.UntilNulPrefix | vm/minivm.c:68-75 | the text before the first NUL is what `vm_puts` writes |
| Machine.Vm.constructor | vm/minivm.c:122-197 | a fresh machine with newly allocated arena and frame stack is valid and is the initial state |
| Machine.Vm.PutChar | vm/minivm.c:780-787 | one character is appended to the output |
| Machine.Vm.PutN | vm/minivm.c:51-66 | the output grows by the decimal text of the number |
| Machine.Vm.PutS | vm/minivm.c:68-75 | the output grows by the string up to its first NUL |
| Machine.Vm.PutF | vm/minivm.c:77-83 | the output grows by what `vm_putf` prints for the number |
| Machine.Vm.Print | vm/minivm.c:85-120 | the output grows by the rendering of the value, or the rendering's fault is reported |
| Machine.Vm.PrintElements | vm/minivm.c:105-118 | the output grows by the comma-separated rendering of the elements, or the first element's fault is reported |
| Machine.Vm.Get | vm/minivm.c:334-341 | reading a register of the current window gives the model's value or its fault |
| Machine.Vm.Set | vm/minivm.c:334-341 | writing a register of the current window makes the state the model's store, or reports its fault |
| Machine.Vm.GetRhs | vm/minivm.c:377-385 | the right-hand operand is the immediate or the register's number, as the model says |
| Machine.Vm.DoStore | vm/minivm.c:334-357 | the stores update the arena in place as `ExecStore` says |
| Machine.Vm.DoStoreFun | vm/minivm.c:358-367 | `STORE_FUN` updates the arena in place as `ExecStoreFun` says |
| Machine.Vm.DoCompare | vm/minivm.c:368-475 | the compares update the arena in place as `ExecCompare` says |
| Machine.Vm.DoArith | vm/minivm.c:681-770 | the arithmetic opcodes update the arena in place as `ExecArith` says |
| Machine.Vm.DoUpdate | vm/minivm.c:649-680 | `INC`/`DEC` update the arena in place as `ExecUpdate` says |
| Machine.Vm.DoJump | vm/minivm.c:476-648 | the jumps move the index as `ExecJump` says |
| Machine.Vm.DoReturn | vm/minivm.c:205-217 | `RETURN` pops the frame stack in place as `ExecReturn` says |
| Machine.Vm.DoLength | vm/minivm.c:238-246 | `LENGTH` updates the arena in place as `ExecLength` says |
| Machine.Vm.DoIndex | vm/minivm.c:247-267 | `INDEX`/`INDEX_NUM` update the arena in place as `ExecIndex` says |
| Machine.Vm.DoPrintln | vm/minivm.c:771-779 | `PRINTLN` appends to the output as `ExecPrintln` says |
| Machine.Vm.DoPutchar | vm/minivm.c:780-787 | `PUTCHAR` appends to the output as `ExecPutchar` says |
| Machine.Vm.CopyArguments | vm/minivm.c:273-278 | the argument loop writes the arena array as `CopyArgs` says |
| Machine.Vm.EnterFrame | vm/minivm.c:280-289 | pushing the frame updates the frame stack in place as `Enter` says |
| Machine.Vm.DoCall | vm/minivm.c:268-333 | the call opcodes update arena and frames in place as `ExecCall` says |
| Machine.Vm.CallWithArguments | vm/minivm.c:268-333 | copying arguments and entering the callee act as `CallWith` says |
| Machine.Vm.Invoke | vm/minivm.c:279-289 | entering the callee acts as `CallInto` says |
| Machine.Vm.Collect | vm/minivm.c:220-224 | the collection step leaves the state `Collected` describes |
| Machine.Vm.DoArray | vm/minivm.c:218-237 | `ARRAY` updates heap and arena as `ExecArray` says |
| Machine.Vm.AllocateArray | vm/minivm.c:225-236 | allocating and filling the array acts as `Allocate` says |
| Machine.Vm.GatherElements | vm/minivm.c:228-233 | the element loop reads the values `Gather` says |
| Machine.Vm.Dispatch | vm/minivm.c:137-194 | the handler an opcode selects acts as `ExecOp` says |
| Machine.Vm.Step | vm/minivm.c:21-36 | one fetch and dispatch reports the outcome `Semantics.Step` gives and keeps the machine valid |
| Machine.Vm.Run | vm/minivm.c:122-204 | the dispatch loop reports the outcome `Semantics.Run` gives |
| Machine.RunProgram | vm/minivm.c:122-204 | running a program from a fresh machine gives the status and output of `Semantics.Run` from the initial state |
| JsIr.ArgAt | vm/ir/be/js.c:140 | an argument slot past the listed ones reads as the `NONE` sentinel |
| JsText.Then | vm/ir/be/js.c:37-42 | writing two pieces aborts exactly when either piece does |
| JsText.Extend | vm/ir/be/js.c:50-315 | writing one piece and then another writes their sequence |
| JsText.ArgText | vm/ir/be/js.c:15-48 | an argument aborts the writer exactly when it is a string or an extern |
| JsText.Sentinel | vm/ir/be/js.c:140 | the call loop stops at the first `NONE` slot from slot 1 on |
| JsWriter.Writer.constructor | vm/ir/be/js.c:50 | a writer starts with empty output and the given `%lf` format |
| JsWriter.Writer.Put | vm/ir/be/js.c:4-12 | one `fprintf` appends its text |
| JsWriter.Writer.PutRegs | vm/ir/be/js.c:5-10 | the loop writes the comma-separated register names |
| JsWriter.Writer.PutBlockRef | vm/ir/be/js.c:4-13 | `vm_ir_be_js_block` appends the thunk entering the target |
| JsWriter.Writer.PutArg | vm/ir/be/js.c:15-48 | `vm_ir_be_js_arg` appends the argument's text or aborts |
| JsWriter.Writer.Lit | vm/ir/be/js.c:73-258 | a literal piece extends what a template has written |
| JsWriter.Writer.Operand | vm/ir/be/js.c:73-258 | an operand extends what a template has written, or aborts |
| JsWriter.Writer.PutDecl | vm/ir/be/js.c:77-79 | `var <out>=` is written |
| JsWriter.Writer.PutCallArgs | vm/ir/be/js.c:140-145 | the call arguments from slot 1 up to the sentinel are written comma-separated, stopping at the first that aborts |
| JsWriter.Writer.PutBin | vm/ir/be/js.c:84-133 | a binary instruction is written as `var <out>=<a0><op><a1>;` |
| JsWriter.Writer.PutCall | vm/ir/be/js.c:134-148 | a call is written as `var <out>=call(<a0>(<args>));` |
| JsWriter.Writer.PutGet | vm/ir/be/js.c:163-171 | a read is written as `<out>=<a0>[<a1>];` |
| JsWriter.Writer.PutSet | vm/ir/be/js.c:172-180 | a write is written as `<a0>[<a1>]=<a2>;` |
| JsWriter.Writer.PutUnary | vm/ir/be/js.c:76-196 | move, array, length and type are written by their templates; type always aborts after writing |
| JsWriter.Writer.PutInstr | vm/ir/be/js.c:72-258 | every instruction is written by its kind's template |
| JsWriter.Writer.PutArms | vm/ir/be/js.c:268-274 | the arms of a two-way branch enter the true target first, then the false one |
| JsWriter.Writer.PutTest | vm/ir/be/js.c:276-299 | a comparing branch is written as `if(<a><rel><b>){...}else{...}` |
| JsWriter.Writer.PutBranch | vm/ir/be/js.c:261-310 | every branch is written by its kind's template |
| JsWriter.Writer.PutInstrs | vm/ir/be/js.c:70-260 | the instructions of a block are written in order, stopping at the first that aborts |
| JsWriter.Writer.PutHeader | vm/ir/be/js.c:61-69 | `const l<id> = (<params>) => {` is written |
| JsWriter.Writer.PutBlock | vm/ir/be/js.c:56-312 | a block is its header, its instructions, its branch and `};` |
| JsWriter.Writer.PutProgram | vm/ir/be/js.c:50-315 | `vm_ir_be_js` writes the prelude, each block with a non-negative id in order, and the entry call, stopping at the first abort |
| JsProperties.ThenAssoc | vm/ir/be/js.c:50-315 | how a sequence of writes is grouped does not matter |
| JsProperties.InstrsTrapStays | vm/ir/be/js.c:70-260 | after an instruction aborts, the later ones write nothing |
| JsProperties.BlocksTrapStays | vm/ir/be/js.c:55-313 | after a block aborts, the later ones write nothing |
| JsProperties.CallArgsTrapStays | vm/ir/be/js.c:140-145 | after a call argument aborts, the later ones write nothing |
| JsProperties.BlocksAppend | vm/ir/be/js.c:55-313 | the text of two runs of blocks is the first's followed by the second's |
| JsProperties.Kept | vm/ir/be/js.c:57-59 | the blocks kept are exactly those with a non-negative id |
| JsProperties.SkipsNegative | vm/ir/be/js.c:57-59 | the blocks' text is that of the blocks with a non-negative id |
| JsProperties.ProgramSkipsNegative | vm/ir/be/js.c:50-315 | a program writes what it writes without its negative-id blocks |
| JsProperties.CallSlots | vm/ir/be/js.c:140 | the call slots before the sentinel hold no `NONE` |
| JsProperties.CallArgsTraps | vm/ir/be/js.c:140-145 | the call loop aborts exactly when an argument it writes is a string or extern |
| JsProperties.CallSlotsUnwritable | vm/ir/be/js.c:140-145 | a call slot is unwritable exactly when an argument before the sentinel is |
| JsProperties.CallTraps | vm/ir/be/js.c:134-148 | a call aborts exactly when one of its operands is unwritable |
| JsProperties.InstrTraps | vm/ir/be/js.c:72-258 | an instruction aborts exactly when it is `TYPE` or one of the operands its template writes is a string or extern |
| JsProperties.BranchTraps | vm/ir/be/js.c:261-310 | a branch aborts exactly when one of its operands is a string or extern |
| JsProperties.InstrsTraps | vm/ir/be/js.c:70-260 | a block's instructions abort exactly when one of them does |
| JsProperties.BlockTraps | vm/ir/be/js.c:55-313 | a block aborts exactly when its id is non-negative and an instruction or its branch aborts |
| JsProperties.BlocksTraps | vm/ir/be/js.c:55-313 | the blocks abort exactly when one of them does |
| JsProperties.ProgramTraps | vm/ir/be/js.c:50-315 | the back end aborts exactly when some block it writes aborts |
| JsProperties.ProgramFraming | vm/ir/be/js.c:50-315 | the output always starts with the prelude, and a complete output is prelude, blocks, then `call(()=>l0());` |
| JsProperties.CallArgsSentinel | vm/ir/be/js.c:140-145 | the call text depends only on the slots up to and including the sentinel |
| JsProperties.SentinelAgrees | vm/ir/be/js.c:140 | two argument lists that agree up to the sentinel have the same sentinel |
| JsProperties.CallArgsAgree | vm/ir/be/js.c:140-145 | argument lists that agree on the slots written give the same call text |
| JsProperties.RegsJoin | vm/ir/be/js.c:5-10 | the loop's parameter list is the register names joined by commas |
| JsProperties.JoinSnoc | vm/ir/be/js.c:5-10 | one more register adds a comma and its name at the end |
| JsProperties.RegNamesDistinct | vm/ir/be/js.c:28-31 | distinct registers get distinct JavaScript names |
| JsProperties.HeadersDistinct | vm/ir/be/js.c:61-69 | blocks with distinct ids declare distinct closures |
| JsProperties.RefsDistinct | vm/ir/be/js.c:4-13 | thunks for distinct targets enter distinct closures |
| JsProperties.NumbersApart | vm/ir/be/js.c:4-13 | distinct numbers written between a fixed prefix and a non-digit give distinct texts |
| JsProperties.DigitsApart | vm/ir/be/js.c:4-13 | distinct digit strings each followed by a non-digit give distinct texts |

## Left out

- NaN-boxing, `nanbox.h`, is not part of this model. Values are a tagged datatype. Reading a value with the wrong tag is a `WrongType` fault where the C code reinterprets the bits.
- Numbers are exact reals, not IEEE doubles: no rounding, infinity or NaN. A zero divisor in `DIV`/`MOD` is a `DivisionByZero` fault.
- The collector (`vm/gc.c`, `vm/gcvec.c`) is not part of this model. `Collector.Collect` keeps exactly the reachable arrays. Its contract promises only what every correct collector gives: a sub-heap, roots kept, closed under references.
- The fault checks where the C code has undefined behaviour are added by the model: unknown opcode, operand past the end of the code, a register outside the arena, arena or frame-stack overflow, `RETURN` from the root frame, a freed handle and an out-of-range index. The C code reads or writes out of bounds instead.
- The opcode numbers come from `vm/vm.h`, which is not part of this model. The model numbers opcodes in the order `vm_run` registers their handlers. Operands are little-endian, as on the machines minivm targets.
- Computed `goto`, `vm_fetch` before the operands are used, and the `VM_DEBUG` tracing are not modelled. One step decodes, then executes.
- Bytecode.ReadBool: a `bool` operand byte other than 0 or 1 is a `BadOperand` fault. The C code reads the byte as `bool` without checking it.
- Semantics.Enter: a negative window size in the callee's first word is a `BadOperand` fault. The C code would just offset the next window by it.
- Semantics.ExecArray: a negative element count is a `BadOperand` fault. The C element loop (`vm/minivm.c:229`) runs zero times and allocates an empty array.
- Opcodes are taken to be one byte wide. The read macros (`vm/minivm.c:37-49`) advance the index by the operand's size in `opcode_t` units, so an operand word takes 4 positions only when `opcode_t` is a byte.
- Memory allocation and freeing (`vm_mem_alloc`, `vm_mem_free`, `vm_gc_start`, `vm_gc_stop`) are not modelled. The arena starts filled with the number 0 rather than undefined contents.
- Semantics.Run: the dispatch loop is cut off after a fuel bound. A program that never exits is modelled only up to that bound.
- Semantics.ExecPutchar: converting a number outside the range of `char` is undefined in C. The model truncates toward zero and writes the result modulo 256.
- Printer.Print: `vm_print` treats any value that is neither a boolean nor a number as an array. The model reports a `WrongType` fault for a function value instead.
- The `long` overflow of `vm_putn(-n)` for the smallest `long` is not modelled; integers are unbounded.
- Output (`vm_putchar`, the back end's `FILE *`) is an appended string. I/O errors are not modelled.
- The back end's `%lf` text of a number is left to a parameter `fmt` of the writer, since it depends on the C library's formatting.
- The back end's `known` array, js.c:60 and 67, is written but never read, and is left out. Its write can go past `nregs` in C.
- `__builtin_trap` is modelled as the writer reporting failure and writing nothing more. The process abort is not modelled.
- IR block pointers are modelled as `Target` values, each with the target's id and parameter registers. The IR construction and the other back ends are outside this model.
- Argument slots past the ones listed read as `NONE`. The C code relies on the IR allocating such a sentinel after the last call argument.
