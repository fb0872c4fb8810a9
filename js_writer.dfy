/**
 * The JavaScript back end as the program runs it: a writer appending to an
 * output stream, one piece at a time, and stopping dead where the program
 * traps. Every method is proved to write exactly the text that `JsText`
 * defines and to report whether it aborted.
 */
module JsWriter {
  import opened JsIr
  import opened JsText
  import JsProperties

  class Writer {
    /** Everything written to the output stream so far. */
    var out: string
    /** How a number is written under `%lf`. */
    const fmt: real -> string

    constructor(fmt: real -> string)
      ensures out == "" && this.fmt == fmt
    {
      out := "";
      this.fmt := fmt;
    }

    method Put(s: string)
      modifies this
      ensures out == old(out) + s
    {
      out := out + s;
    }

    /** The comma-separated parameter registers of a block. */
    method PutRegs(regs: seq<nat>)
      modifies this
      ensures out == old(out) + Regs(regs)
    {
      var i := 0;
      while i < |regs|
        invariant 0 <= i <= |regs|
        invariant out == old(out) + Regs(regs[..i])
      {
        if i != 0 {
          Put(",");
        }
        Put(RegName(regs[i]));
        assert regs[..i + 1][..i] == regs[..i];
        i := i + 1;
      }
      assert regs[..|regs|] == regs;
    }

    /** `vm_ir_be_js_block`. */
    method PutBlockRef(t: Target)
      modifies this
      ensures out == old(out) + BlockRef(t)
    {
      Put("return()=>l" + Decimal(t.id) + "(");
      PutRegs(t.args);
      Put(");");
    }

    /** `vm_ir_be_js_arg`; `ok` is false where the program traps. */
    method PutArg(a: Arg) returns (ok: bool)
      modifies this
      ensures Wrote(ArgText(fmt, a), ok, old(out), out)
    {
      ok := true;
      match a
      case None =>
      case Nil => Put("undefined");
      case BoolArg(b) =>
        if b {
          Put("true");
        } else {
          Put("false");
        }
      case Reg(n) => Put(RegName(n));
      case NumArg(x) => Put(fmt(x));
      case Str => ok := false;
      case Extern => ok := false;
      case Func(id) => Put("l" + Decimal(id));
    }

    /** Writes the literal `s` after `w`, which is what has been written since `start`. */
    method Lit(s: string, ghost start: string, ghost w: Emitted) returns (ghost r: Emitted)
      requires Wrote(w, true, start, out)
      modifies this
      ensures r == Then(w, Text(s)) && Wrote(r, true, start, out)
    {
      ghost var mid := out;
      Put(s);
      Extend(w, Text(s), true, start, mid, out);
      r := Then(w, Text(s));
    }

    /** Writes operand `a` after `w`, which is what has been written since `start`. */
    method Operand(a: Arg, ghost start: string, ghost w: Emitted) returns (ok: bool, ghost r: Emitted)
      requires Wrote(w, true, start, out)
      modifies this
      ensures r == Then(w, ArgText(fmt, a)) && Wrote(r, ok, start, out)
    {
      ghost var mid := out;
      ok := PutArg(a);
      Extend(w, ArgText(fmt, a), ok, start, mid, out);
      r := Then(w, ArgText(fmt, a));
    }

    /** `var <out>=`. */
    method PutDecl(o: Arg) returns (ok: bool)
      modifies this
      ensures Wrote(Decl(fmt, o), ok, old(out), out)
    {
      Put("var ");
      ghost var w := Text("var ");
      ok, w := Operand(o, old(out), w);
      if ok {
        w := Lit("=", old(out), w);
      }
    }

    /** The arguments of a call, from slot 1 up to the `None` sentinel. */
    method PutCallArgs(args: seq<Arg>) returns (ok: bool)
      modifies this
      ensures Wrote(CallArgs(fmt, args, Sentinel(args, 1)), ok, old(out), out)
    {
      var i := 1;
      while ArgAt(args, i) != None
        invariant 1 <= i <= Sentinel(args, 1)
        invariant Wrote(CallArgs(fmt, args, i), true, old(out), out)
        decreases Sentinel(args, 1) - i
      {
        ghost var w := CallArgs(fmt, args, i);
        if i != 1 {
          w := Lit(",", old(out), w);
        }
        ok, w := Operand(ArgAt(args, i), old(out), w);
        if !ok {
          JsProperties.CallArgsTrapStays(fmt, args, i + 1, Sentinel(args, 1));
          return;
        }
        i := i + 1;
      }
      ok := true;
    }

    /** A binary instruction: `var <out>=<a0><symbol><a1>;`. */
    method PutBin(ins: Instr) returns (ok: bool)
      requires ins.op.Bin?
      modifies this
      ensures Wrote(InstrText(fmt, ins), ok, old(out), out)
    {
      ok := PutDecl(ins.out);
      if !ok {
        return;
      }
      ghost var w := Decl(fmt, ins.out);
      ok, w := Operand(ArgAt(ins.args, 0), old(out), w);
      if !ok {
        return;
      }
      w := Lit(Symbol(ins.op.bin), old(out), w);
      ok, w := Operand(ArgAt(ins.args, 1), old(out), w);
      if ok {
        w := Lit(";", old(out), w);
      }
    }

    /** A call: `var <out>=call(<a0>(<a1>,...));`. */
    method PutCall(ins: Instr) returns (ok: bool)
      requires ins.op.Call?
      modifies this
      ensures Wrote(InstrText(fmt, ins), ok, old(out), out)
    {
      ok := PutDecl(ins.out);
      if !ok {
        return;
      }
      ghost var w := Decl(fmt, ins.out);
      w := Lit("call(", old(out), w);
      ok, w := Operand(ArgAt(ins.args, 0), old(out), w);
      if !ok {
        return;
      }
      w := Lit("(", old(out), w);
      ghost var mid := out;
      ok := PutCallArgs(ins.args);
      Extend(w, CallArgs(fmt, ins.args, Sentinel(ins.args, 1)), ok, old(out), mid, out);
      w := Then(w, CallArgs(fmt, ins.args, Sentinel(ins.args, 1)));
      if ok {
        w := Lit("));", old(out), w);
      }
    }

    /** Reading an element: `<out>=<a0>[<a1>];`. */
    method PutGet(ins: Instr) returns (ok: bool)
      requires ins.op.Get?
      modifies this
      ensures Wrote(InstrText(fmt, ins), ok, old(out), out)
    {
      ok := PutArg(ins.out);
      if !ok {
        return;
      }
      ghost var w := ArgText(fmt, ins.out);
      w := Lit("=", old(out), w);
      ok, w := Operand(ArgAt(ins.args, 0), old(out), w);
      if !ok {
        return;
      }
      w := Lit("[", old(out), w);
      ok, w := Operand(ArgAt(ins.args, 1), old(out), w);
      if ok {
        w := Lit("];", old(out), w);
      }
    }

    /** Writing an element: `<a0>[<a1>]=<a2>;`. */
    method PutSet(ins: Instr) returns (ok: bool)
      requires ins.op.Set?
      modifies this
      ensures Wrote(InstrText(fmt, ins), ok, old(out), out)
    {
      ok := PutArg(ArgAt(ins.args, 0));
      if !ok {
        return;
      }
      ghost var w := ArgText(fmt, ArgAt(ins.args, 0));
      w := Lit("[", old(out), w);
      ok, w := Operand(ArgAt(ins.args, 1), old(out), w);
      if !ok {
        return;
      }
      w := Lit("]=", old(out), w);
      ok, w := Operand(ArgAt(ins.args, 2), old(out), w);
      if ok {
        w := Lit(";", old(out), w);
      }
    }

    /** The declaring instructions of one operand: move, array, length and type. */
    method PutUnary(ins: Instr) returns (ok: bool)
      requires ins.op.Move? || ins.op.Arr? || ins.op.Len? || ins.op.Type?
      modifies this
      ensures Wrote(InstrText(fmt, ins), ok, old(out), out)
    {
      ok := PutDecl(ins.out);
      if !ok {
        return;
      }
      ghost var w := Decl(fmt, ins.out);
      if ins.op.Arr? {
        w := Lit("{length:", old(out), w);
      } else if ins.op.Type? {
        w := Lit("typeof ", old(out), w);
      }
      ok, w := Operand(ArgAt(ins.args, 0), old(out), w);
      if !ok {
        return;
      }
      match ins.op
      case Move => w := Lit(";", old(out), w);
      case Arr => w := Lit("};", old(out), w);
      case Len => w := Lit(".length;", old(out), w);
      case Type =>
        w := Lit(".length;", old(out), w);
        ok := false;
    }

    /** One instruction, by its kind (js.c:72-258). */
    method PutInstr(ins: Instr) returns (ok: bool)
      modifies this
      ensures Wrote(InstrText(fmt, ins), ok, old(out), out)
    {
      match ins.op
      case Nop => ok := true;
      case Bin(_) => ok := PutBin(ins);
      case Call => ok := PutCall(ins);
      case Get => ok := PutGet(ins);
      case Set => ok := PutSet(ins);
      case Move => ok := PutUnary(ins);
      case Arr => ok := PutUnary(ins);
      case Len => ok := PutUnary(ins);
      case Type => ok := PutUnary(ins);
      case Tab =>
        ok := PutDecl(ins.out);
        if ok {
          ghost var w := Lit("Object.create(null);", old(out), Decl(fmt, ins.out));
        }
      case Out =>
        Put("putchar(");
        ghost var w;
        ok, w := Operand(ArgAt(ins.args, 0), old(out), Text("putchar("));
        if ok {
          w := Lit(");", old(out), w);
        }
      case In =>
        ok := PutDecl(ins.out);
        if ok {
          ghost var w := Lit("getchar();", old(out), Decl(fmt, ins.out));
        }
    }

    /** `){<ifTrue>}else{<ifFalse>}`. */
    method PutArms(ifFalse: Target, ifTrue: Target)
      modifies this
      ensures out == old(out) + Arms(ifFalse, ifTrue)
    {
      Put("){");
      PutBlockRef(ifTrue);
      Put("}else{");
      PutBlockRef(ifFalse);
      Put("}");
    }

    /** The test and arms of a two-way branch: `<lhs><relation><rhs>` and the arms, after `w`. */
    method PutTest(lhs: Arg, relation: string, rhs: Arg, ifFalse: Target, ifTrue: Target, ghost start: string, ghost w: Emitted)
      returns (ok: bool, ghost r: Emitted)
      requires Wrote(w, true, start, out)
      modifies this
      ensures r == Then(Then(Then(Then(w, ArgText(fmt, lhs)), Text(relation)), ArgText(fmt, rhs)), Text(Arms(ifFalse, ifTrue)))
      ensures Wrote(r, ok, start, out)
    {
      ok, r := Operand(lhs, start, w);
      if !ok {
        r := Then(Then(Then(r, Text(relation)), ArgText(fmt, rhs)), Text(Arms(ifFalse, ifTrue)));
        return;
      }
      r := Lit(relation, start, r);
      ok, r := Operand(rhs, start, r);
      if !ok {
        r := Then(r, Text(Arms(ifFalse, ifTrue)));
        return;
      }
      ghost var mid := out;
      PutArms(ifFalse, ifTrue);
      Extend(r, Text(Arms(ifFalse, ifTrue)), true, start, mid, out);
      r := Then(r, Text(Arms(ifFalse, ifTrue)));
    }

    /** The branch that ends a block (js.c:261-310). */
    method PutBranch(br: Branch) returns (ok: bool)
      modifies this
      ensures Wrote(BranchText(fmt, br), ok, old(out), out)
    {
      match br
      case Jump(t) =>
        PutBlockRef(t);
        ok := true;
      case BoolBranch(c, f, t) =>
        Put("if(");
        ghost var w;
        ok, w := Operand(c, old(out), Text("if("));
        if ok {
          ghost var mid := out;
          PutArms(f, t);
          Extend(w, Text(Arms(f, t)), true, old(out), mid, out);
        }
      case Less(a, b, f, t) =>
        Put("if(");
        ghost var w;
        ok, w := PutTest(a, "<", b, f, t, old(out), Text("if("));
      case Equal(a, b, f, t) =>
        Put("if(");
        ghost var w;
        ok, w := PutTest(a, "===", b, f, t, old(out), Text("if("));
      case Ret(a) =>
        Put("return ");
        ghost var w;
        ok, w := Operand(a, old(out), Text("return "));
        if ok {
          w := Lit(";", old(out), w);
        }
      case Exit =>
        Put("exit();");
        ok := true;
    }

    /** The instructions of a block, in order, up to the first that traps. */
    method PutInstrs(instrs: seq<Instr>) returns (ok: bool)
      modifies this
      ensures Wrote(InstrsText(fmt, instrs), ok, old(out), out)
    {
      var n := 0;
      while n < |instrs|
        invariant 0 <= n <= |instrs|
        invariant Wrote(InstrsText(fmt, instrs[..n]), true, old(out), out)
      {
        ghost var mid := out;
        ok := PutInstr(instrs[n]);
        Extend(InstrsText(fmt, instrs[..n]), InstrText(fmt, instrs[n]), ok, old(out), mid, out);
        assert instrs[..n + 1][..n] == instrs[..n];
        if !ok {
          JsProperties.InstrsTrapStays(fmt, instrs, n + 1);
          return;
        }
        n := n + 1;
      }
      assert instrs[..n] == instrs;
      ok := true;
    }

    /** `const l<id> = (<params>) => {`. */
    method PutHeader(b: Block)
      modifies this
      ensures out == old(out) + Header(b)
    {
      var head := "const l" + Decimal(b.id) + " = (";
      Put(head);
      PutRegs(b.args);
      Put(") => {");
      assert old(out) + Header(b) == old(out) + (head + Regs(b.args) + ") => {");
    }

    /** One block with a non-negative id: header, instructions, branch, `};`. */
    method PutBlock(b: Block) returns (ok: bool)
      requires b.id >= 0
      modifies this
      ensures Wrote(BlockText(fmt, b), ok, old(out), out)
    {
      PutHeader(b);
      ghost var w := Text(Header(b));
      ghost var mid := out;
      ok := PutInstrs(b.instrs);
      Extend(w, InstrsText(fmt, b.instrs), ok, old(out), mid, out);
      w := Then(w, InstrsText(fmt, b.instrs));
      if !ok {
        return;
      }
      mid := out;
      ok := PutBranch(b.branch);
      Extend(w, BranchText(fmt, b.branch), ok, old(out), mid, out);
      w := Then(w, BranchText(fmt, b.branch));
      if ok {
        w := Lit("};\n", old(out), w);
      }
    }

    /** `vm_ir_be_js`: the prelude, every block with a non-negative id, the entry call. */
    method PutProgram(blocks: seq<Block>) returns (ok: bool)
      modifies this
      ensures Wrote(ProgramText(fmt, blocks), ok, old(out), out)
    {
      Put(Prelude);
      ghost var start := out;
      var n := 0;
      while n < |blocks|
        invariant 0 <= n <= |blocks|
        invariant Wrote(BlocksText(fmt, blocks[..n]), true, start, out)
      {
        assert blocks[..n + 1][..n] == blocks[..n];
        if blocks[n].id < 0 {
          JsProperties.ThenUnit(BlocksText(fmt, blocks[..n]));
          n := n + 1;
          continue;
        }
        ghost var mid := out;
        ok := PutBlock(blocks[n]);
        Extend(BlocksText(fmt, blocks[..n]), BlockText(fmt, blocks[n]), ok, start, mid, out);
        if !ok {
          JsProperties.BlocksTrapStays(fmt, blocks, n + 1);
          Extend(Text(Prelude), BlocksText(fmt, blocks), false, old(out), start, out);
          return;
        }
        n := n + 1;
      }
      assert blocks[..n] == blocks;
      Extend(Text(Prelude), BlocksText(fmt, blocks), true, old(out), start, out);
      ghost var w := Lit(Footer, old(out), Then(Text(Prelude), BlocksText(fmt, blocks)));
      ok := true;
    }
  }
}
