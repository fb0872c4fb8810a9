/**
 * The meaning of one step of `vm_run`: the state the interpreter keeps in its
 * local variables (instruction index, current function, locals base, frame
 * depth, the locals arena and the frame stack) together with the collector's
 * heap and pacing threshold and the characters written so far.
 */
module Semantics {
  import opened Results
  import opened Values
  import opened Bytecode
  import Printer
  import Collector

  /** Capacity of the frame stack, of the locals arena, and the size of the root (globals) window. */
  const FrameNum: int := 0x1_0000
  const LocalsNum: int := 0x100_0000
  const GlobalsNum: int := 256

  /** `stack_frame_t`: where the frame's caller resumes, and the size of the frame's window. */
  datatype Frame = Frame(index: int, func: int, outreg: int, nlocals: int)

  datatype State = State(
    index: int,            // cur_index: position of the next opcode
    func: int,             // cur_func: entry offset of the running function
    base: int,             // cur_locals - locals_base
    depth: int,            // cur_frame - frames_base
    locals: seq<Value>,    // the locals arena
    frames: seq<Frame>,    // the frame stack
    heap: Heap,            // the collector's live arrays
    next: Handle,          // the handle the next allocation receives
    maxlen: int,           // gc->maxlen: live count that triggers a collection
    stackEnd: int,         // the collector's root boundary
    out: string)           // characters written by vm_putchar

  datatype Outcome = Running(state: State) | Halted(state: State) | Faulted(fault: Fault)

  /** Position just past `words` word operands of the opcode at `p`. */
  function Next(p: int, words: nat): int {
    p + OpWidth + WordWidth * words
  }

  /** Where the window of frame `d` starts: the windows below it are laid out back to back. */
  function WindowBase(frames: seq<Frame>, d: nat): int
    requires d <= |frames|
  {
    if d == 0 then 0 else WindowBase(frames, d - 1) + frames[d - 1].nlocals
  }

  lemma {:induction false} WindowBaseFrom(frames: seq<Frame>, frames': seq<Frame>, d: nat)
    requires d <= |frames| && d <= |frames'|
    requires forall i :: 0 <= i < d ==> frames[i].nlocals == frames'[i].nlocals
    ensures WindowBase(frames, d) == WindowBase(frames', d)
  {
    if d > 0 {
      WindowBaseFrom(frames, frames', d - 1);
    }
  }

  lemma {:induction false} WindowBaseNonNegative(frames: seq<Frame>, d: nat)
    requires d <= |frames|
    requires forall i :: 0 <= i < d ==> 0 <= frames[i].nlocals
    ensures 0 <= WindowBase(frames, d)
  {
    if d > 0 {
      WindowBaseNonNegative(frames, d - 1);
    }
  }

  predicate LocalsBelow(locals: seq<Value>, bound: nat) {
    forall i :: 0 <= i < |locals| ==> Below(locals[i], bound)
  }

  /**
   * The invariant of the interpreter: fixed capacities, the current window
   * inside the arena right after its callers' windows, and every array handle
   * in the arena or the heap allocated before `next`, older arrays first.
   */
  ghost predicate Valid(s: State) {
    && |s.locals| == LocalsNum && |s.frames| == FrameNum
    && 0 <= s.depth < FrameNum
    && (forall d :: 0 <= d <= s.depth ==> 0 <= s.frames[d].nlocals)
    && 0 <= s.base == WindowBase(s.frames, s.depth)
    && s.base + s.frames[s.depth].nlocals <= LocalsNum
    && Ordered(s.heap) && HeapBelow(s.heap, s.next) && LocalsBelow(s.locals, s.next)
  }

  /** `t` keeps everything `s` wrote and every handle `s` handed out. */
  predicate Extends(s: State, t: State) {
    s.out <= t.out && s.next <= t.next
  }

  /** The state `vm_run` starts in; `maxlen` is the collector's initial threshold. */
  function Init(maxlen: int): (s: State)
    ensures Valid(s)
    ensures s.index == 0 && s.func == 0 && s.depth == 0 && s.base == 0
    ensures s.frames[0].nlocals == GlobalsNum && s.heap == map[] && s.out == ""
  {
    State(0, 0, 0, 0,
      seq(LocalsNum, _ => Num(0.0)),
      seq(FrameNum, d => Frame(0, 0, 0, if d == 0 then GlobalsNum else 0)),
      map[], 0, maxlen, 0, "")
  }

  /** `cur_locals[reg]`. */
  function Load(s: State, reg: int): (r: Result<Value, Fault>)
    ensures r.Ok? <==> 0 <= s.base + reg < |s.locals|
    ensures r.Ok? ==> r.value == s.locals[s.base + reg]
  {
    var slot := s.base + reg;
    if 0 <= slot < |s.locals| then Ok(s.locals[slot]) else Err(OutsideArena(slot))
  }

  function LoadNum(s: State, reg: int): Result<real, Fault> {
    var v :- Load(s, reg);
    AsNum(v)
  }

  /** `cur_locals[reg] = v`. */
  function Store(s: State, reg: int, v: Value): (r: Result<State, Fault>)
    ensures r.Ok? <==> 0 <= s.base + reg < |s.locals|
    ensures r.Ok? ==> r.value == s.(locals := s.locals[s.base + reg := v])
  {
    var slot := s.base + reg;
    if 0 <= slot < |s.locals| then Ok(s.(locals := s.locals[slot := v])) else Err(OutsideArena(slot))
  }

  /** The last operand of a two-form opcode: a register's number, or the literal itself. */
  function Rhs(code: seq<byte>, s: State, p: int, k: nat, imm: bool): Result<real, Fault> {
    var w :- Word(code, p, k);
    if imm then Ok(w as real) else LoadNum(s, w)
  }

  function Holds(c: Cmp, x: real, y: real): bool {
    match c
    case Eq => x == y
    case Ne => x != y
    case Lt => x < y
    case Gt => x > y
    case Le => x <= y
    case Ge => x >= y
  }

  /** The test of a conditional jump. As written, `JUMP_IF_GREATER_NUM` tests `>=`. */
  function JumpHolds(c: Cmp, imm: bool, x: real, y: real): bool {
    if c == Gt && imm then x >= y else Holds(c, x, y)
  }

  /** Arithmetic on exact reals; a zero divisor is a fault instead of an IEEE infinity or NaN. */
  function Apply(a: ArithOp, x: real, y: real): Result<real, Fault> {
    match a
    case Add => Ok(x + y)
    case Sub => Ok(x - y)
    case Mul => Ok(x * y)
    case Div => if y == 0.0 then Err(DivisionByZero) else Ok(x / y)
    case Mod => if y == 0.0 then Err(DivisionByZero) else Ok(FMod(x, y))
  }

  /** `STORE_REG`, `STORE_NUM`, `STORE_LOG`. */
  function ExecStore(code: seq<byte>, s: State, op: Op): (r: Result<State, Fault>)
    requires Valid(s) && (op.StoreReg? || op.StoreNum? || op.StoreLog?)
    ensures r.Ok? ==> Valid(r.value) && Extends(s, r.value)
  {
    var p := s.index;
    var to :- Word(code, p, 0);
    var v :-
      if op.StoreReg? then (var from :- Word(code, p, 1); Load(s, from))
      else if op.StoreNum? then (var n :- Word(code, p, 1); Ok(Num(n as real)))
      else (var b :- ReadBool(code, Next(p, 1)); Ok(Bool(b)));
    var t :- Store(s, to, v);
    Ok(t.(index := if op.StoreLog? then Next(p, 1) + BoolWidth else Next(p, 2)))
  }

  /** `STORE_FUN`: the function's code starts right after the operands; execution skips to its end. */
  function ExecStoreFun(code: seq<byte>, s: State): (r: Result<State, Fault>)
    requires Valid(s)
    ensures r.Ok? ==> Valid(r.value) && Extends(s, r.value)
    ensures r.Ok? <==>
      && Word(code, s.index, 0).Ok? && Word(code, s.index, 1).Ok?
      && 0 <= s.base + Word(code, s.index, 0).value < |s.locals|
    ensures r.Ok? ==>
      r.value == s.(locals := s.locals[s.base + Word(code, s.index, 0).value := Fun(Next(s.index, 2))],
                    index := Word(code, s.index, 1).value)
  {
    var p := s.index;
    var to :- Word(code, p, 0);
    var end :- Word(code, p, 1);
    var t :- Store(s, to, Fun(Next(p, 2)));
    Ok(t.(index := end))
  }

  /** `EQUAL` ... `GREATER_THAN_EQUAL` and their `_NUM` forms. */
  function ExecCompare(code: seq<byte>, s: State, c: Cmp, imm: bool): (r: Result<State, Fault>)
    requires Valid(s)
    ensures r.Ok? ==> Valid(r.value) && Extends(s, r.value)
  {
    var p := s.index;
    var to :- Word(code, p, 0);
    var lhs :- Word(code, p, 1);
    var x :- LoadNum(s, lhs);
    var y :- Rhs(code, s, p, 2, imm);
    var t :- Store(s, to, Bool(Holds(c, x, y)));
    Ok(t.(index := Next(p, 3)))
  }

  /** `ADD` ... `MOD` and their `_NUM` forms. */
  function ExecArith(code: seq<byte>, s: State, a: ArithOp, imm: bool): (r: Result<State, Fault>)
    requires Valid(s)
    ensures r.Ok? ==> Valid(r.value) && Extends(s, r.value)
  {
    var p := s.index;
    var to :- Word(code, p, 0);
    var lhs :- Word(code, p, 1);
    var x :- LoadNum(s, lhs);
    var y :- Rhs(code, s, p, 2, imm);
    var z :- Apply(a, x, y);
    var t :- Store(s, to, Num(z));
    Ok(t.(index := Next(p, 3)))
  }

  /** `INC`, `DEC` and their `_NUM` forms: the target register is also the left operand. */
  function ExecUpdate(code: seq<byte>, s: State, sub: bool, imm: bool): (r: Result<State, Fault>)
    requires Valid(s)
    ensures r.Ok? ==> Valid(r.value) && Extends(s, r.value)
  {
    var p := s.index;
    var target :- Word(code, p, 0);
    var x :- LoadNum(s, target);
    var y :- Rhs(code, s, p, 1, imm);
    var t :- Store(s, target, Num(if sub then x - y else x + y));
    Ok(t.(index := Next(p, 2)))
  }

  /** The jumps: the target is an absolute position, taken when the condition holds. */
  function ExecJump(code: seq<byte>, s: State, op: Op): (r: Result<State, Fault>)
    requires Valid(s) && (op.JumpAlways? || op.JumpIfFalse? || op.JumpIfTrue? || op.JumpIf?)
    ensures r.Ok? ==> Valid(r.value) && Extends(s, r.value)
  {
    var p := s.index;
    var to :- Word(code, p, 0);
    if op.JumpAlways? then Ok(s.(index := to))
    else if op.JumpIf? then
      var lhs :- Word(code, p, 1);
      var x :- LoadNum(s, lhs);
      var y :- Rhs(code, s, p, 2, op.imm);
      Ok(s.(index := if JumpHolds(op.cond, op.imm, x, y) then to else Next(p, 3)))
    else
      var from :- Word(code, p, 1);
      var v :- Load(s, from);
      var b :- AsBool(v);
      Ok(s.(index := if b == op.JumpIfTrue? then to else Next(p, 2)))
  }

  /**
   * The argument loop of the call opcodes after `count` iterations: argument
   * k goes from register `regno_k` of the caller to arena slot `next + k`.
   */
  function CopyArgs(code: seq<byte>, at: int, locals: seq<Value>, base: int, next: int, count: nat)
    : (r: Result<seq<Value>, Fault>)
    ensures r.Ok? ==> |r.value| == |locals|
    ensures r.Ok? && count > 0 ==> 0 <= next + count - 1 < |locals|
  {
    if count == 0 then Ok(locals)
    else
      var prev :- CopyArgs(code, at, locals, base, next, count - 1);
      var regno :- ReadInt(code, at + WordWidth * (count - 1));
      var src, dst := base + regno, next + count - 1;
      if !(0 <= src < |prev|) then Err(OutsideArena(src))
      else if !(0 <= dst < |prev|) then Err(OutsideArena(dst))
      else Ok(prev[dst := prev[src]])
  }

  lemma {:induction false} CopyArgsBelow(code: seq<byte>, at: int, locals: seq<Value>, base: int, next: int,
                                         count: nat, bound: nat)
    requires LocalsBelow(locals, bound)
    requires CopyArgs(code, at, locals, base, next, count).Ok?
    ensures LocalsBelow(CopyArgs(code, at, locals, base, next, count).value, bound)
  {
    if count > 0 {
      CopyArgsBelow(code, at, locals, base, next, count - 1, bound);
    }
  }

  /** The argument loop writes only at and above `next`: the windows below stay as they were. */
  lemma {:induction false} CopyArgsKeepsBelow(code: seq<byte>, at: int, locals: seq<Value>, base: int, next: int,
                                              count: nat)
    requires CopyArgs(code, at, locals, base, next, count).Ok?
    ensures forall i :: 0 <= i < next && i < |locals| ==>
      CopyArgs(code, at, locals, base, next, count).value[i] == locals[i]
  {
    if count > 0 {
      CopyArgsKeepsBelow(code, at, locals, base, next, count - 1);
    }
  }

  /** Position of the argument count of a call opcode, counted in words: `REC` has no function operand. */
  function CountWord(op: Op): nat {
    if op.Rec? then 1 else 2
  }

  lemma {:induction false} CopyArgsStops(code: seq<byte>, at: int, locals: seq<Value>, base: int, next: int,
                                         k: nat, count: nat)
    requires k <= count && CopyArgs(code, at, locals, base, next, k).Err?
    ensures CopyArgs(code, at, locals, base, next, count) == CopyArgs(code, at, locals, base, next, k)
    decreases count
  {
    if k < count {
      CopyArgsStops(code, at, locals, base, next, k, count - 1);
    }
  }

  /**
   * Push a frame: the caller's frame records where to resume, which function
   * runs and where the result goes; the window advances past the caller's and
   * the callee's first word gives the size of its window.
   */
  function Enter(code: seq<byte>, s: State, outreg: int, resume: int, entry: int, rec: bool)
    : (r: Result<State, Fault>)
    requires Valid(s)
    ensures r.Ok? ==> Valid(r.value) && Extends(s, r.value)
  {
    if s.depth + 1 >= FrameNum then Err(FrameOverflow)
    else
      var nlocals :- ReadInt(code, entry);
      var next := s.base + s.frames[s.depth].nlocals;
      if nlocals < 0 then Err(BadOperand(entry))
      else if next + nlocals > LocalsNum then Err(ArenaOverflow)
      else
        var caller := s.frames[s.depth].(index := resume, func := s.func, outreg := outreg);
        var callee := s.frames[s.depth + 1].(nlocals := nlocals);
        var frames := s.frames[s.depth := caller][s.depth + 1 := callee];
        WindowBaseFrom(s.frames, frames, s.depth);
        Ok(s.(index := entry + WordWidth, func := entry, base := next, depth := s.depth + 1,
              frames := frames, stackEnd := if rec then next + nlocals else s.stackEnd))
  }

  /** `CALL`, `STATIC_CALL` and `REC`. */
  function ExecCall(code: seq<byte>, s: State, op: Op): (r: Result<State, Fault>)
    requires Valid(s) && (op.Call? || op.StaticCall? || op.Rec?)
    ensures r.Ok? ==> Valid(r.value) && Extends(s, r.value)
  {
    var p := s.index;
    var outreg :- Word(code, p, 0);
    var target :- if op.Rec? then Ok(s.func) else Word(code, p, 1);
    var nargs :- Word(code, p, CountWord(op));
    CallWith(code, s, op, outreg, target, if nargs < 0 then 0 else nargs)
  }

  /** The argument loop of a call with its operands read, then the rest of the call. */
  function CallWith(code: seq<byte>, s: State, op: Op, outreg: int, target: int, count: nat)
    : (r: Result<State, Fault>)
    requires Valid(s)
    ensures r.Ok? ==> Valid(r.value) && Extends(s, r.value)
  {
    var argsAt := Next(s.index, CountWord(op) + 1);
    var next := s.base + s.frames[s.depth].nlocals;
    var locals :- CopyArgs(code, argsAt, s.locals, s.base, next, count);
    CopyArgsBelow(code, argsAt, s.locals, s.base, next, count, s.next);
    CallInto(code, s.(locals := locals), op, outreg, target, argsAt + WordWidth * count)
  }

  /** The rest of a call once the arguments are in place: `CALL` takes the entry from a function value. */
  function CallInto(code: seq<byte>, s: State, op: Op, outreg: int, target: int, resume: int)
    : (r: Result<State, Fault>)
    requires Valid(s)
    ensures r.Ok? ==> Valid(r.value) && Extends(s, r.value)
  {
    var entry :- if op.Call? then (var v :- Load(s, target); AsFun(v)) else Ok(target);
    Enter(code, s, outreg, resume, entry, op.Rec?)
  }

  /** `RETURN`: pop the frame and store the result in the caller's output register. */
  function ExecReturn(code: seq<byte>, s: State): (r: Result<State, Fault>)
    requires Valid(s)
    ensures r.Ok? ==> Valid(r.value) && Extends(s, r.value)
  {
    var from :- Word(code, s.index, 0);
    var v :- Load(s, from);
    if s.depth == 0 then Err(FrameUnderflow)
    else
      var caller := s.frames[s.depth - 1];
      WindowBaseNonNegative(s.frames, s.depth - 1);
      Store(s.(index := caller.index, func := caller.func, base := s.base - caller.nlocals, depth := s.depth - 1),
            caller.outreg, v)
  }

  /** A collection with the top of the current window as root boundary, then the new threshold. */
  function Collected(s: State): (r: State)
    requires Valid(s)
    ensures Valid(r)
  {
    var top := s.base + s.frames[s.depth].nlocals;
    var heap := Collector.Collect(s.heap, s.locals[..top]);
    Collector.CollectKeepsOrder(s.heap, s.locals[..top], s.next);
    s.(stackEnd := top, heap := heap, maxlen := 2 + |heap| * 8)
  }

  /** The state `ARRAY` allocates in: collected first when the live count reached the threshold. */
  function Prepared(s: State): (r: State)
    requires Valid(s)
    ensures Valid(r) && r.locals == s.locals && r.base == s.base && r.next == s.next && r.out == s.out
  {
    if |s.heap| >= s.maxlen then Collected(s) else s
  }

  /** The element loop of `ARRAY` after `count` iterations. */
  function Gather(code: seq<byte>, at: int, s: State, count: nat): (r: Result<seq<Value>, Fault>)
    requires LocalsBelow(s.locals, s.next)
    ensures r.Ok? ==> |r.value| == count && forall i :: 0 <= i < count ==> Below(r.value[i], s.next)
  {
    if count == 0 then Ok([])
    else
      var prefix :- Gather(code, at, s, count - 1);
      var reg :- ReadInt(code, at + WordWidth * (count - 1));
      var v :- Load(s, reg);
      Ok(prefix + [v])
  }

  lemma {:induction false} GatherStops(code: seq<byte>, at: int, s: State, k: nat, count: nat)
    requires LocalsBelow(s.locals, s.next)
    requires k <= count && Gather(code, at, s, k).Err?
    ensures Gather(code, at, s, count) == Gather(code, at, s, k)
    decreases count
  {
    if k < count {
      GatherStops(code, at, s, k, count - 1);
    }
  }

  /** `ARRAY`: collect if the live count reached the threshold, then allocate the listed registers' values. */
  function ExecArray(code: seq<byte>, s: State): (r: Result<State, Fault>)
    requires Valid(s)
    ensures r.Ok? ==> Valid(r.value) && Extends(s, r.value)
  {
    var p := s.index;
    var s1 := Prepared(s);
    var outreg :- Word(code, p, 0);
    var n :- Word(code, p, 1);
    if n < 0 then Err(BadOperand(Next(p, 1))) else Allocate(code, s1, outreg, n)
  }

  /** The element loop of `ARRAY` with its operands read, then the new array into the output register. */
  function Allocate(code: seq<byte>, s: State, outreg: int, n: nat): (r: Result<State, Fault>)
    requires Valid(s)
    ensures r.Ok? ==> Valid(r.value) && Extends(s, r.value)
  {
    var at := Next(s.index, 2);
    var elems :- Gather(code, at, s, n);
    var h := s.next;
    var t :- Store(s.(heap := s.heap[h := elems], next := h + 1), outreg, Arr(h));
    Ok(t.(index := at + WordWidth * n))
  }

  /** `LENGTH`. */
  function ExecLength(code: seq<byte>, s: State): (r: Result<State, Fault>)
    requires Valid(s)
    ensures r.Ok? ==> Valid(r.value) && Extends(s, r.value)
  {
    var p := s.index;
    var outreg :- Word(code, p, 0);
    var reg :- Word(code, p, 1);
    var v :- Load(s, reg);
    var h :- AsArray(s.heap, v);
    var t :- Store(s, outreg, Num(|s.heap[h]| as real));
    Ok(t.(index := Next(p, 2)))
  }

  /** `INDEX` (index in a register, truncated toward zero) and `INDEX_NUM` (literal index). */
  function ExecIndex(code: seq<byte>, s: State, imm: bool): (r: Result<State, Fault>)
    requires Valid(s)
    ensures r.Ok? ==> Valid(r.value) && Extends(s, r.value)
  {
    var p := s.index;
    var outreg :- Word(code, p, 0);
    var reg :- Word(code, p, 1);
    var w :- Word(code, p, 2);
    var i :- if imm then Ok(w) else (var x :- LoadNum(s, w); Ok(Trunc(x)));
    var v :- Load(s, reg);
    var h :- AsArray(s.heap, v);
    if !(0 <= i < |s.heap[h]|) then Err(IndexOutOfRange(h, i))
    else
      var t :- Store(s, outreg, s.heap[h][i]);
      Ok(t.(index := Next(p, 3)))
  }

  /** `PRINTLN`: the structural printer, then a newline. */
  function ExecPrintln(code: seq<byte>, s: State): (r: Result<State, Fault>)
    requires Valid(s)
    ensures r.Ok? ==> Valid(r.value) && Extends(s, r.value)
  {
    var from :- Word(code, s.index, 0);
    var v :- Load(s, from);
    var text :- Printer.Print(s.heap, v);
    Ok(s.(index := Next(s.index, 1), out := s.out + text + "\n"))
  }

  /** `PUTCHAR`: the number converted to a C `char`, written as one byte. */
  function ExecPutchar(code: seq<byte>, s: State): (r: Result<State, Fault>)
    requires Valid(s)
    ensures r.Ok? ==> Valid(r.value) && Extends(s, r.value)
  {
    var from :- Word(code, s.index, 0);
    var x :- LoadNum(s, from);
    Ok(s.(index := Next(s.index, 1), out := s.out + [(Trunc(x) % 256) as char]))
  }

  /** The handler of every opcode but `EXIT`. */
  function ExecOp(code: seq<byte>, s: State, op: Op): (r: Result<State, Fault>)
    requires Valid(s) && !op.Exit?
    ensures r.Ok? ==> Valid(r.value) && Extends(s, r.value)
  {
    match op
    case StoreReg => ExecStore(code, s, op)
    case StoreNum => ExecStore(code, s, op)
    case StoreLog => ExecStore(code, s, op)
    case StoreFun => ExecStoreFun(code, s)
    case Compare(c, imm) => ExecCompare(code, s, c, imm)
    case JumpAlways => ExecJump(code, s, op)
    case JumpIfFalse => ExecJump(code, s, op)
    case JumpIfTrue => ExecJump(code, s, op)
    case JumpIf(_, _) => ExecJump(code, s, op)
    case Inc(imm) => ExecUpdate(code, s, false, imm)
    case Dec(imm) => ExecUpdate(code, s, true, imm)
    case Arith(a, imm) => ExecArith(code, s, a, imm)
    case Call => ExecCall(code, s, op)
    case StaticCall => ExecCall(code, s, op)
    case Rec => ExecCall(code, s, op)
    case Return => ExecReturn(code, s)
    case Println => ExecPrintln(code, s)
    case Putchar => ExecPutchar(code, s)
    case Array => ExecArray(code, s)
    case Length => ExecLength(code, s)
    case Index => ExecIndex(code, s, false)
    case IndexNum => ExecIndex(code, s, true)
  }

  /** Fetch and dispatch: an opcode outside the code or without a handler is a fault; `EXIT` halts. */
  function Step(code: seq<byte>, s: State): (o: Outcome)
    requires Valid(s)
    ensures o.Running? || o.Halted? ==> Valid(o.state) && Extends(s, o.state)
  {
    if !(0 <= s.index < |code|) then Faulted(Truncated(s.index))
    else
      match Decode(code[s.index])
      case None => Faulted(UnknownOpcode(s.index))
      case Some(op) =>
        if op.Exit? then Halted(s)
        else
          match ExecOp(code, s, op)
          case Ok(t) => Running(t)
          case Err(f) => Faulted(f)
  }

  ghost predicate ValidOutcome(o: Outcome) {
    o.Running? || o.Halted? ==> Valid(o.state)
  }

  /**
   * The dispatch loop of `vm_run`, cut off after `fuel` more steps: a halted
   * or faulted machine stays as it is. A machine still standing after the
   * loop extends the one it started from.
   */
  function Continue(code: seq<byte>, o: Outcome, fuel: nat): (r: Outcome)
    requires ValidOutcome(o)
    ensures ValidOutcome(r)
    ensures r.Running? || r.Halted? ==> (o.Running? || o.Halted?) && Extends(o.state, r.state)
    decreases fuel
  {
    if fuel == 0 || !o.Running? then o else Continue(code, Step(code, o.state), fuel - 1)
  }

  /** Up to `fuel` steps from `s`. */
  function Run(code: seq<byte>, s: State, fuel: nat): Outcome
    requires Valid(s)
  {
    Continue(code, Running(s), fuel)
  }
}
