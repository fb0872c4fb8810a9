/**
 * The block-structured IR that the JavaScript back end reads. Blocks refer to
 * one another through pointers in the program this models; here a reference
 * carries what the back end reads through it: the block's id and its
 * parameter registers.
 */
module JsIr {

  /** `vm_ir_arg_t` by its type tag; `None` is the sentinel that ends a call's argument list. */
  datatype Arg =
    | None
    | Nil
    | BoolArg(logic: bool)
    | Reg(reg: nat)
    | NumArg(num: real)
    | Str
    | Extern
    | Func(id: int)

  /** The binary instruction kinds and the JavaScript operator each is written with. */
  datatype BinOp = Add | Sub | Mul | Div | Mod | Bor | Band | Bxor | Bshl | Bshr

  datatype IOp =
    | Nop
    | Move
    | Bin(bin: BinOp)
    | Call
    | Arr
    | Tab
    | Get
    | Set
    | Len
    | Type
    | Out
    | In

  /** An instruction: its output and its argument slots (slots past the end read as `None`). */
  datatype Instr = Instr(op: IOp, out: Arg, args: seq<Arg>)

  /** What the back end reads through a block pointer. */
  datatype Target = Target(id: int, args: seq<nat>)

  /**
   * The branch that ends a block. A two-way branch goes to `ifTrue`
   * (`targets[1]`) when its test holds and to `ifFalse` (`targets[0]`) otherwise.
   */
  datatype Branch =
    | Jump(target: Target)
    | BoolBranch(cond: Arg, ifFalse: Target, ifTrue: Target)
    | Less(lhs: Arg, rhs: Arg, ifFalse: Target, ifTrue: Target)
    | Equal(lhs: Arg, rhs: Arg, ifFalse: Target, ifTrue: Target)
    | Ret(value: Arg)
    | Exit

  /** `vm_ir_block_t`: a negative id marks a block the back end skips. */
  datatype Block = Block(id: int, args: seq<nat>, instrs: seq<Instr>, branch: Branch)

  /** Argument slot `i`, with `None` past the end. */
  function ArgAt(args: seq<Arg>, i: nat): (a: Arg)
    ensures i >= |args| ==> a == None
  {
    if i < |args| then args[i] else None
  }
}
