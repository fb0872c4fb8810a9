/**
 * What the JavaScript back end's output is: where it aborts, how its pieces
 * compose, that skipped blocks leave no trace, that a call's argument list
 * ends at the sentinel, and that distinct registers and blocks get distinct
 * JavaScript names.
 */
module JsProperties {
  import opened JsIr
  import opened JsText
  import Printer

  // ---------------------------------------------------------------------------
  // Composition of written text

  lemma ThenUnit(a: Emitted)
    ensures Then(a, Text("")) == a && Then(Text(""), a) == a
  {
    assert a.text + "" == a.text;
  }

  lemma ThenAssoc(a: Emitted, b: Emitted, c: Emitted)
    ensures Then(Then(a, b), c) == Then(a, Then(b, c))
  {
    if !a.trapped && !b.trapped {
      assert (a.text + b.text) + c.text == a.text + (b.text + c.text);
    }
  }

  /** Once the instructions written so far have aborted, the rest of the block writes nothing. */
  lemma {:induction false} InstrsTrapStays(fmt: real -> string, instrs: seq<Instr>, n: nat)
    requires n <= |instrs| && InstrsText(fmt, instrs[..n]).trapped
    ensures InstrsText(fmt, instrs) == InstrsText(fmt, instrs[..n])
    decreases |instrs|
  {
    if n == |instrs| {
      assert instrs[..n] == instrs;
    } else {
      var init := instrs[..|instrs| - 1];
      assert init[..n] == instrs[..n];
      InstrsTrapStays(fmt, init, n);
    }
  }

  /** Once the blocks written so far have aborted, no later block and no footer is written. */
  lemma {:induction false} BlocksTrapStays(fmt: real -> string, blocks: seq<Block>, n: nat)
    requires n <= |blocks| && BlocksText(fmt, blocks[..n]).trapped
    ensures BlocksText(fmt, blocks) == BlocksText(fmt, blocks[..n])
    decreases |blocks|
  {
    if n == |blocks| {
      assert blocks[..n] == blocks;
    } else {
      var init := blocks[..|blocks| - 1];
      assert init[..n] == blocks[..n];
      BlocksTrapStays(fmt, init, n);
    }
  }

  /** Once a call argument has aborted, the later arguments write nothing. */
  lemma {:induction false} CallArgsTrapStays(fmt: real -> string, args: seq<Arg>, i: nat, k: nat)
    requires 1 <= i <= k && CallArgs(fmt, args, i).trapped
    ensures CallArgs(fmt, args, k) == CallArgs(fmt, args, i)
    decreases k
  {
    if k > i {
      CallArgsTrapStays(fmt, args, i, k - 1);
    }
  }

  /** The blocks of `a + b` are written as those of `a`, then those of `b`. */
  lemma {:induction false} BlocksAppend(fmt: real -> string, a: seq<Block>, b: seq<Block>)
    ensures BlocksText(fmt, a + b) == Then(BlocksText(fmt, a), BlocksText(fmt, b))
    decreases |b|
  {
    if b == [] {
      assert a + b == a;
      ThenUnit(BlocksText(fmt, a));
    } else {
      var init := b[..|b| - 1];
      assert (a + b)[..|a + b| - 1] == a + init;
      assert (a + b)[|a + b| - 1] == b[|b| - 1];
      BlocksAppend(fmt, a, init);
      ThenAssoc(BlocksText(fmt, a), BlocksText(fmt, init), BlockText(fmt, b[|b| - 1]));
    }
  }

  // ---------------------------------------------------------------------------
  // Skipped blocks

  /** The blocks the back end writes: those with a non-negative id, in order. */
  function Kept(blocks: seq<Block>): (r: seq<Block>)
    ensures forall b :: b in r ==> b in blocks && b.id >= 0
    ensures forall b :: b in blocks && b.id >= 0 ==> b in r
  {
    if blocks == [] then []
    else
      var last := blocks[|blocks| - 1];
      var init := blocks[..|blocks| - 1];
      assert blocks == init + [last];
      Kept(init) + (if last.id >= 0 then [last] else [])
  }

  /** Blocks with a negative id leave no trace in the blocks' text. */
  lemma {:induction false} SkipsNegative(fmt: real -> string, blocks: seq<Block>)
    ensures BlocksText(fmt, blocks) == BlocksText(fmt, Kept(blocks))
    decreases |blocks|
  {
    if blocks != [] {
      var last := blocks[|blocks| - 1];
      var init := blocks[..|blocks| - 1];
      SkipsNegative(fmt, init);
      if last.id >= 0 {
        var kept := Kept(init) + [last];
        assert Kept(blocks) == kept;
        assert kept[..|kept| - 1] == Kept(init) && kept[|kept| - 1] == last;
      } else {
        assert Kept(blocks) == Kept(init);
        assert BlockText(fmt, last) == Text("");
        ThenUnit(BlocksText(fmt, init));
      }
    }
  }

  /** The program written for `blocks` is the one written for its kept blocks alone. */
  lemma ProgramSkipsNegative(fmt: real -> string, blocks: seq<Block>)
    ensures ProgramText(fmt, blocks) == ProgramText(fmt, Kept(blocks))
  {
    SkipsNegative(fmt, blocks);
  }

  // ---------------------------------------------------------------------------
  // Where the back end aborts

  /** An operand the back end cannot write: a string or an extern. */
  predicate Unwritable(a: Arg) {
    a.Str? || a.Extern?
  }

  /** The argument slots of a call after the callee, up to the `None` sentinel. */
  function CallSlots(args: seq<Arg>): (r: seq<Arg>)
    ensures forall a :: a in r ==> a != None
  {
    var k := Sentinel(args, 1);
    if k > 1 then
      assert ArgAt(args, k - 1) != None;
      assert forall i :: 0 <= i < k - 1 ==> args[1..k][i] == ArgAt(args, i + 1) != None;
      args[1..k]
    else []
  }

  /** The operands each instruction kind's template reads, in the order it writes them. */
  function Operands(ins: Instr): seq<Arg> {
    var a0 := ArgAt(ins.args, 0);
    var a1 := ArgAt(ins.args, 1);
    match ins.op
    case Nop => []
    case Move => [ins.out, a0]
    case Bin(_) => [ins.out, a0, a1]
    case Call => [ins.out, a0] + CallSlots(ins.args)
    case Arr => [ins.out, a0]
    case Tab => [ins.out]
    case Get => [ins.out, a0, a1]
    case Set => [a0, a1, ArgAt(ins.args, 2)]
    case Len => [ins.out, a0]
    case Type => [ins.out, a0]
    case Out => [a0]
    case In => [ins.out]
  }

  /** An instruction aborts the back end: a TYPE instruction, or an operand it cannot write. */
  predicate Aborts(ins: Instr) {
    ins.op.Type? || exists a :: a in Operands(ins) && Unwritable(a)
  }

  /** The operands a branch's template reads. */
  function BranchOperands(br: Branch): seq<Arg> {
    match br
    case Jump(_) => []
    case BoolBranch(c, _, _) => [c]
    case Less(a, b, _, _) => [a, b]
    case Equal(a, b, _, _) => [a, b]
    case Ret(a) => [a]
    case Exit => []
  }

  lemma {:induction false} CallArgsTraps(fmt: real -> string, args: seq<Arg>, i: nat)
    requires 1 <= i
    ensures CallArgs(fmt, args, i).trapped <==> exists j :: 1 <= j < i && Unwritable(ArgAt(args, j))
    decreases i
  {
    if i > 1 {
      CallArgsTraps(fmt, args, i - 1);
    }
  }

  lemma CallSlotsUnwritable(args: seq<Arg>)
    ensures (exists a :: a in CallSlots(args) && Unwritable(a))
        <==> exists j :: 1 <= j < Sentinel(args, 1) && Unwritable(ArgAt(args, j))
  {
    var k := Sentinel(args, 1);
    if k > 1 {
      assert ArgAt(args, k - 1) != None;
      var slots := args[1..k];
      assert CallSlots(args) == slots;
      if exists j :: 1 <= j < k && Unwritable(ArgAt(args, j)) {
        var j :| 1 <= j < k && Unwritable(ArgAt(args, j));
        assert slots[j - 1] == ArgAt(args, j);
        assert slots[j - 1] in slots;
      }
      if exists a :: a in slots && Unwritable(a) {
        var a :| a in slots && Unwritable(a);
        var m :| 0 <= m < |slots| && slots[m] == a;
        assert ArgAt(args, m + 1) == a;
      }
    }
  }

  /** A call's template aborts exactly when an operand it reads cannot be written. */
  lemma CallTraps(fmt: real -> string, ins: Instr)
    requires ins.op.Call?
    ensures InstrText(fmt, ins).trapped <==> Aborts(ins)
  {
    var ops := Operands(ins);
    var slots := CallSlots(ins.args);
    CallArgsTraps(fmt, ins.args, Sentinel(ins.args, 1));
    CallSlotsUnwritable(ins.args);
    assert ops == [ins.out, ArgAt(ins.args, 0)] + slots;
    assert ops[0] in ops && ops[1] in ops;
    assert forall a :: a in slots ==> a in ops;
    assert forall a :: a in ops ==> a == ins.out || a == ArgAt(ins.args, 0) || a in slots;
  }

  /** An instruction's template aborts exactly when the instruction `Aborts`. */
  lemma InstrTraps(fmt: real -> string, ins: Instr)
    ensures InstrText(fmt, ins).trapped <==> Aborts(ins)
  {
    var ops := Operands(ins);
    if ins.op.Call? {
      CallTraps(fmt, ins);
    } else {
      if |ops| > 0 {
        assert ops[0] in ops;
      }
      if |ops| > 1 {
        assert ops[1] in ops;
      }
      if |ops| > 2 {
        assert ops[2] in ops;
      }
    }
  }

  lemma BranchTraps(fmt: real -> string, br: Branch)
    ensures BranchText(fmt, br).trapped <==> exists a :: a in BranchOperands(br) && Unwritable(a)
  {
    var ops := BranchOperands(br);
    if |ops| > 0 {
      assert ops[0] in ops;
    }
    if |ops| > 1 {
      assert ops[1] in ops;
    }
  }

  lemma {:induction false} InstrsTraps(fmt: real -> string, instrs: seq<Instr>)
    ensures InstrsText(fmt, instrs).trapped <==> exists i :: 0 <= i < |instrs| && Aborts(instrs[i])
    decreases |instrs|
  {
    if instrs != [] {
      var init := instrs[..|instrs| - 1];
      InstrsTraps(fmt, init);
      InstrTraps(fmt, instrs[|instrs| - 1]);
      assert forall i :: 0 <= i < |init| ==> init[i] == instrs[i];
    }
  }

  /** A block aborts when it is written and one of its instructions or its branch aborts. */
  predicate BlockAborts(b: Block) {
    b.id >= 0
    && ((exists i :: 0 <= i < |b.instrs| && Aborts(b.instrs[i]))
        || exists a :: a in BranchOperands(b.branch) && Unwritable(a))
  }

  lemma BlockTraps(fmt: real -> string, b: Block)
    ensures BlockText(fmt, b).trapped <==> BlockAborts(b)
  {
    InstrsTraps(fmt, b.instrs);
    BranchTraps(fmt, b.branch);
  }

  lemma {:induction false} BlocksTraps(fmt: real -> string, blocks: seq<Block>)
    ensures BlocksText(fmt, blocks).trapped <==> exists i :: 0 <= i < |blocks| && BlockAborts(blocks[i])
    decreases |blocks|
  {
    if blocks != [] {
      var init := blocks[..|blocks| - 1];
      BlocksTraps(fmt, init);
      BlockTraps(fmt, blocks[|blocks| - 1]);
      assert forall i :: 0 <= i < |init| ==> init[i] == blocks[i];
    }
  }

  /** The whole program is written, from the prelude to the entry call, unless some block aborts. */
  lemma ProgramTraps(fmt: real -> string, blocks: seq<Block>)
    ensures ProgramText(fmt, blocks).trapped <==> exists i :: 0 <= i < |blocks| && BlockAborts(blocks[i])
  {
    BlocksTraps(fmt, blocks);
  }

  /**
   * The output starts with the prelude, and a program written in full is the
   * prelude, the blocks and the entry call.
   */
  lemma ProgramFraming(fmt: real -> string, blocks: seq<Block>)
    ensures var r := ProgramText(fmt, blocks);
      && r.text[..|Prelude|] == Prelude
      && (!r.trapped ==> r.text == Prelude + BlocksText(fmt, blocks).text + Footer)
  {
    var body := BlocksText(fmt, blocks);
    var r := ProgramText(fmt, blocks);
    if body.trapped {
      assert r.text == Prelude + body.text;
    } else {
      assert r.text == (Prelude + body.text) + Footer;
    }
  }

  // ---------------------------------------------------------------------------
  // Call arguments stop at the sentinel

  /**
   * A call's argument list is read up to the first `None` slot: two calls
   * whose slots agree up to that sentinel are written alike, whatever follows it.
   */
  lemma {:induction false} CallArgsSentinel(fmt: real -> string, args: seq<Arg>, other: seq<Arg>)
    requires forall j :: 1 <= j <= Sentinel(args, 1) ==> ArgAt(other, j) == ArgAt(args, j)
    ensures Sentinel(other, 1) == Sentinel(args, 1)
    ensures CallArgs(fmt, other, Sentinel(other, 1)) == CallArgs(fmt, args, Sentinel(args, 1))
  {
    var k := Sentinel(args, 1);
    SentinelAgrees(args, other, 1, k);
    CallArgsAgree(fmt, args, other, k);
  }

  lemma {:induction false} SentinelAgrees(args: seq<Arg>, other: seq<Arg>, i: nat, k: nat)
    requires 1 <= i <= k == Sentinel(args, 1)
    requires forall j :: i <= j <= k ==> ArgAt(other, j) == ArgAt(args, j)
    ensures Sentinel(other, i) == k
    decreases k - i
  {
    if i < k {
      SentinelAgrees(args, other, i + 1, k);
    }
  }

  lemma {:induction false} CallArgsAgree(fmt: real -> string, args: seq<Arg>, other: seq<Arg>, k: nat)
    requires 1 <= k
    requires forall j :: 1 <= j < k ==> ArgAt(other, j) == ArgAt(args, j)
    ensures CallArgs(fmt, other, k) == CallArgs(fmt, args, k)
    decreases k
  {
    if k > 1 {
      CallArgsAgree(fmt, args, other, k - 1);
    }
  }

  // ---------------------------------------------------------------------------
  // Names

  /** A reference definition of the parameter list: register names joined by commas, front to back. */
  function Join(regs: seq<nat>): string {
    if regs == [] then ""
    else if |regs| == 1 then RegName(regs[0])
    else RegName(regs[0]) + ("," + Join(regs[1..]))
  }

  /** The parameter list the loops write is the comma-joined register names. */
  lemma {:induction false} RegsJoin(regs: seq<nat>)
    ensures Regs(regs) == Join(regs)
    decreases |regs|
  {
    if |regs| > 1 {
      var init := regs[..|regs| - 1];
      var name := RegName(regs[|regs| - 1]);
      RegsJoin(init);
      JoinSnoc(init, regs[|regs| - 1]);
      assert init + [regs[|regs| - 1]] == regs;
      assert Regs(init) + "," + name == Join(init) + ("," + name);
    }
  }

  lemma {:induction false} JoinSnoc(regs: seq<nat>, r: nat)
    requires regs != []
    ensures Join(regs + [r]) == Join(regs) + ("," + RegName(r))
    decreases |regs|
  {
    var tail := "," + RegName(r);
    assert (regs + [r])[0] == regs[0];
    if |regs| > 1 {
      assert (regs + [r])[1..] == regs[1..] + [r];
      JoinSnoc(regs[1..], r);
      var head := RegName(regs[0]);
      var rest := Join(regs[1..]);
      assert head + ("," + (rest + tail)) == head + ("," + rest) + tail;
    } else {
      assert (regs + [r])[1..] == [r];
    }
  }

  /** Distinct registers are written as distinct JavaScript variables. */
  lemma RegNamesDistinct(fmt: real -> string, m: nat, n: nat)
    requires m != n
    ensures ArgText(fmt, Reg(m)).text != ArgText(fmt, Reg(n)).text
  {
    Printer.PutNRoundTrip(m);
    Printer.PutNRoundTrip(n);
    assert RegName(m)[1..] == Decimal(m);
    assert RegName(n)[1..] == Decimal(n);
  }

  /** Distinct block ids give distinct function names in block headers. */
  lemma HeadersDistinct(b: Block, c: Block)
    requires b.id >= 0 && c.id >= 0 && b.id != c.id
    ensures Header(b) != Header(c)
  {
    var rb := " = (" + Regs(b.args) + ") => {";
    var rc := " = (" + Regs(c.args) + ") => {";
    assert Header(b) == "const l" + (Decimal(b.id) + rb);
    assert Header(c) == "const l" + (Decimal(c.id) + rc);
    NumbersApart("const l", b.id, c.id, rb, rc);
  }

  /** Distinct block ids give distinct thunks where a branch refers to a block. */
  lemma RefsDistinct(s: Target, t: Target)
    requires s.id >= 0 && t.id >= 0 && s.id != t.id
    ensures BlockRef(s) != BlockRef(t)
  {
    var rs := "(" + Regs(s.args) + ");";
    var rt := "(" + Regs(t.args) + ");";
    assert BlockRef(s) == "return()=>l" + (Decimal(s.id) + rs);
    assert BlockRef(t) == "return()=>l" + (Decimal(t.id) + rt);
    NumbersApart("return()=>l", s.id, t.id, rs, rt);
  }

  /** Two different numbers, each followed by text that starts with a non-digit, stay apart. */
  lemma NumbersApart(p: string, m: nat, n: nat, s: string, t: string)
    requires m != n
    requires |s| > 0 && |t| > 0 && !Printer.IsDigit(s[0]) && !Printer.IsDigit(t[0])
    ensures p + (Decimal(m) + s) != p + (Decimal(n) + t)
  {
    var d := Decimal(m);
    var e := Decimal(n);
    Printer.PutNDigits(m);
    Printer.PutNDigits(n);
    Printer.PutNRoundTrip(m);
    Printer.PutNRoundTrip(n);
    DigitsApart(d, e, s, t);
    assert (p + (d + s))[|p|..] == d + s;
    assert (p + (e + t))[|p|..] == e + t;
  }

  /** Two different digit strings, each followed by text that starts with a non-digit, stay apart. */
  lemma DigitsApart(d: string, e: string, s: string, t: string)
    requires Printer.AllDigits(d) && Printer.AllDigits(e) && d != e
    requires |s| > 0 && |t| > 0 && !Printer.IsDigit(s[0]) && !Printer.IsDigit(t[0])
    ensures d + s != e + t
  {
    if |d| < |e| {
      assert (d + s)[|d|] == s[0];
      assert (e + t)[|d|] == e[|d|];
    } else if |e| < |d| {
      assert (e + t)[|e|] == t[0];
      assert (d + s)[|e|] == d[|e|];
    } else {
      assert (d + s)[..|d|] == d;
      assert (e + t)[..|e|] == e;
    }
  }
}
