/**
 * The text the JavaScript back end writes, as functions of the IR. Writing
 * can abort (`__builtin_trap`) part-way; `Emitted` keeps the text written up to
 * that point and whether the writer aborted there. Integers are written in
 * decimal (`%li`, `%zi`, `%zu`); the text of a number under `%lf` is left to a
 * parameter `fmt`.
 */
module JsText {
  import opened JsIr
  import Printer

  datatype Emitted = Emitted(text: string, trapped: bool)

  /** Text written without aborting. */
  function Text(s: string): Emitted {
    Emitted(s, false)
  }

  /** Abort without writing anything more. */
  const Trap: Emitted := Emitted("", true)

  /** `a`, then `b` unless `a` aborted. */
  function Then(a: Emitted, b: Emitted): (r: Emitted)
    ensures r.trapped <==> a.trapped || b.trapped
  {
    if a.trapped then a else Emitted(a.text + b.text, b.trapped)
  }

  /** A writer that went from `before` to `after` and reports `ok` wrote `e`. */
  predicate Wrote(e: Emitted, ok: bool, before: string, after: string) {
    after == before + e.text && ok == !e.trapped
  }

  /** Writing `w` and then `p` writes `Then(w, p)`. */
  lemma Extend(w: Emitted, p: Emitted, ok: bool, before: string, mid: string, after: string)
    requires Wrote(w, true, before, mid) && Wrote(p, ok, mid, after)
    ensures Wrote(Then(w, p), ok, before, after)
  {
    assert before + (w.text + p.text) == (before + w.text) + p.text;
  }

  function Decimal(n: int): string {
    Printer.PutN(n)
  }

  /** The JavaScript variable that holds register `n`. */
  function RegName(n: nat): string {
    "r" + Decimal(n)
  }

  /** The name of each register, with a comma between neighbours (the loops at js.c:6-11 and 62-68). */
  function Regs(regs: seq<nat>): string {
    if regs == [] then ""
    else if |regs| == 1 then RegName(regs[0])
    else Regs(regs[..|regs| - 1]) + "," + RegName(regs[|regs| - 1])
  }

  /** `vm_ir_be_js_block`: a thunk that enters the target block with its parameter registers. */
  function BlockRef(t: Target): string {
    "return()=>l" + Decimal(t.id) + "(" + Regs(t.args) + ");"
  }

  /** `vm_ir_be_js_arg`; a string or extern argument aborts, the `None` sentinel writes nothing. */
  function ArgText(fmt: real -> string, a: Arg): (r: Emitted)
    ensures r.trapped <==> a.Str? || a.Extern?
  {
    match a
    case None => Text("")
    case Nil => Text("undefined")
    case BoolArg(b) => Text(if b then "true" else "false")
    case Reg(n) => Text(RegName(n))
    case NumArg(x) => Text(fmt(x))
    case Str => Trap
    case Extern => Trap
    case Func(id) => Text("l" + Decimal(id))
  }

  function Symbol(b: BinOp): string {
    match b
    case Add => "+"
    case Sub => "-"
    case Mul => "*"
    case Div => "/"
    case Mod => "%"
    case Bor => "|"
    case Band => "&"
    case Bxor => "^"
    case Bshl => ">>"
    case Bshr => "<<"
  }

  /** `var <out>=`, the head of every declaring template. */
  function Decl(fmt: real -> string, out: Arg): Emitted {
    Then(Then(Text("var "), ArgText(fmt, out)), Text("="))
  }

  /**
   * The arguments of a call from slot 1 up to (not including) slot `i`,
   * comma-separated; the loop at js.c:140-145 runs while the slot is not `None`.
   */
  function CallArgs(fmt: real -> string, args: seq<Arg>, i: nat): Emitted
    requires i >= 1
  {
    if i == 1 then Text("")
    else
      var prior := CallArgs(fmt, args, i - 1);
      Then(if i - 1 == 1 then prior else Then(prior, Text(",")), ArgText(fmt, ArgAt(args, i - 1)))
  }

  /** The first slot from `i` on that holds the `None` sentinel. */
  function Sentinel(args: seq<Arg>, i: nat): (k: nat)
    ensures i <= k && ArgAt(args, k) == None
    ensures forall j :: i <= j < k ==> ArgAt(args, j) != None
    decreases |args| - i
  {
    if ArgAt(args, i) == None then i else Sentinel(args, i + 1)
  }

  /**
   * The template of each instruction kind (js.c:72-258), piece by piece in
   * the order they are written.
   */
  function InstrText(fmt: real -> string, ins: Instr): Emitted {
    var out := ArgText(fmt, ins.out);
    var a0 := ArgText(fmt, ArgAt(ins.args, 0));
    var a1 := ArgText(fmt, ArgAt(ins.args, 1));
    var decl := Decl(fmt, ins.out);
    match ins.op
    case Nop => Text("")
    case Move => Then(Then(decl, a0), Text(";"))
    case Bin(b) => Then(Then(Then(Then(decl, a0), Text(Symbol(b))), a1), Text(";"))
    case Call =>
      Then(Then(Then(Then(Then(decl, Text("call(")), a0), Text("(")),
        CallArgs(fmt, ins.args, Sentinel(ins.args, 1))), Text("));"))
    case Arr => Then(Then(Then(decl, Text("{length:")), a0), Text("};"))
    case Tab => Then(decl, Text("Object.create(null);"))
    case Get => Then(Then(Then(Then(Then(out, Text("=")), a0), Text("[")), a1), Text("];"))
    case Set => Then(Then(Then(Then(Then(a0, Text("[")), a1), Text("]=")), ArgText(fmt, ArgAt(ins.args, 2))), Text(";"))
    case Len => Then(Then(decl, a0), Text(".length;"))
    case Type => Then(Then(Then(Then(decl, Text("typeof ")), a0), Text(".length;")), Trap)
    case Out => Then(Then(Text("putchar("), a0), Text(");"))
    case In => Then(decl, Text("getchar();"))
  }

  /** The instructions `instrs` one after another. */
  function InstrsText(fmt: real -> string, instrs: seq<Instr>): Emitted {
    if instrs == [] then Text("")
    else Then(InstrsText(fmt, instrs[..|instrs| - 1]), InstrText(fmt, instrs[|instrs| - 1]))
  }

  /** `){<ifTrue>}else{<ifFalse>}`, the arms of a two-way branch. */
  function Arms(ifFalse: Target, ifTrue: Target): string {
    "){" + BlockRef(ifTrue) + "}else{" + BlockRef(ifFalse) + "}"
  }

  /** The template of each branch kind (js.c:261-310). */
  function BranchText(fmt: real -> string, br: Branch): Emitted {
    match br
    case Jump(t) => Text(BlockRef(t))
    case BoolBranch(c, f, t) => Then(Then(Text("if("), ArgText(fmt, c)), Text(Arms(f, t)))
    case Less(a, b, f, t) =>
      Then(Then(Then(Then(Text("if("), ArgText(fmt, a)), Text("<")), ArgText(fmt, b)), Text(Arms(f, t)))
    case Equal(a, b, f, t) =>
      Then(Then(Then(Then(Text("if("), ArgText(fmt, a)), Text("===")), ArgText(fmt, b)), Text(Arms(f, t)))
    case Ret(a) => Then(Then(Text("return "), ArgText(fmt, a)), Text(";"))
    case Exit => Text("exit();")
  }

  /** `const l<id> = (<params>) => {`. */
  function Header(b: Block): string {
    "const l" + Decimal(b.id) + " = (" + Regs(b.args) + ") => {"
  }

  /** One block: nothing for a negative id, otherwise header, instructions, branch and `};`. */
  function BlockText(fmt: real -> string, b: Block): Emitted {
    if b.id < 0 then Text("")
    else Then(Then(Then(Text(Header(b)), InstrsText(fmt, b.instrs)), BranchText(fmt, b.branch)), Text("};\n"))
  }

  function BlocksText(fmt: real -> string, blocks: seq<Block>): Emitted {
    if blocks == [] then Text("")
    else Then(BlocksText(fmt, blocks[..|blocks| - 1]), BlockText(fmt, blocks[|blocks| - 1]))
  }

  /** The four runtime helpers every output starts with. */
  const Prelude: string :=
    "const fs=require('fs');\n"
    + "const call=(f)=>{while (f instanceof Function){f=f();}return f;};\n"
    + "const putchar=(c)=>{process.stdout.write(String.fromCharCode(c))};\n"
    + "const getchar=()=>{const buffer=Buffer.alloc(1);fs.readSync(0, buffer, 0, 1);"
    + "return buffer.toString('utf8').charCodeAt(0);};\n"

  /** The trampoline call into block 0 that every complete output ends with. */
  const Footer: string := "call(()=>l0());"

  /** `vm_ir_be_js`. */
  function ProgramText(fmt: real -> string, blocks: seq<Block>): Emitted {
    Then(Then(Text(Prelude), BlocksText(fmt, blocks)), Text(Footer))
  }
}
