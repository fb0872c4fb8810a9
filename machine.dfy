/**
 * The interpreter as it runs: `vm_run`'s locals arena and frame stack are
 * arrays updated in place, its cursor variables are fields, and each `Do`
 * method is one `do_` label. Every method is proved to do what the matching
 * function of `Semantics` says.
 */
module Machine {
  import opened Results
  import opened Values
  import opened Bytecode
  import opened Semantics
  import Printer

  /** How a machine stands after a step or a run. */
  datatype Status = Going | Stopped | Failed(fault: Fault)

  /** The method's result `r` and new state `now` are what `spec` prescribes. */
  ghost predicate Follows<T>(spec: Result<T, Fault>, r: Result<(), Fault>, now: T) {
    match spec
    case Ok(t) => r == Ok(()) && now == t
    case Err(f) => r == Err(f)
  }

  /** Output `before` grew to `after` as the rendering `spec` says, or the rendering's fault is reported. */
  ghost predicate Emits(spec: Result<string, Fault>, r: Result<(), Fault>, before: string, after: string) {
    match spec
    case Ok(text) => r == Ok(()) && after == before + text
    case Err(f) => r == Err(f)
  }

  /** The status `st` and state `now` of a machine are the outcome `o`. */
  ghost predicate Reports(o: Outcome, st: Status, now: State) {
    match o
    case Running(t) => st == Going && now == t
    case Halted(t) => st == Stopped && now == t
    case Faulted(f) => st == Failed(f)
  }

  /** `o` with the fault of `r` prepended, or `text` before its rendering. */
  function Prepend(text: string, r: Result<string, Fault>): Result<string, Fault> {
    match r
    case Ok(rest) => Ok(text + rest)
    case Err(f) => Err(f)
  }

  lemma PrependNothing(r: Result<string, Fault>)
    ensures Prepend("", r) == r
  {
    if r.Ok? {
      assert "" + r.value == r.value;
    }
  }

  lemma PrependTwice(a: string, b: string, r: Result<string, Fault>)
    ensures Prepend(a, Prepend(b, r)) == Prepend(a + b, r)
  {
    if r.Ok? {
      assert a + (b + r.value) == a + b + r.value;
    }
  }

  /** One element of the printing loop: its rendering, then the rest, or the first fault. */
  lemma PrintFromStep(heap: Heap, xs: seq<Value>, i: nat, bound: nat)
    requires Ordered(heap) && i < |xs|
    requires forall j :: 0 <= j < |xs| ==> Printer.Rank(xs[j]) < bound
    ensures Printer.Print(heap, xs[i]).Err? ==> Printer.PrintFrom(heap, xs, i, bound) == Printer.Print(heap, xs[i])
    ensures Printer.Print(heap, xs[i]).Ok? ==>
      Printer.PrintFrom(heap, xs, i, bound)
        == Prepend((if i != 0 then ", " else "") + Printer.Print(heap, xs[i]).value, Printer.PrintFrom(heap, xs, i + 1, bound))
  {
  }

  /** The outcome a machine with status `st` in state `now` stands for. */
  function AsOutcome(st: Status, now: State): Outcome {
    match st
    case Going => Running(now)
    case Stopped => Halted(now)
    case Failed(f) => Faulted(f)
  }

  lemma ReportsOutcome(st: Status, now: State)
    ensures Reports(AsOutcome(st, now), st, now)
  {
  }

  /** What is left of the dispatch loop for a machine with status `st` in state `now`. */
  function Remaining(code: seq<byte>, st: Status, now: State, fuel: nat): Outcome
    requires !st.Failed? ==> Valid(now)
  {
    Continue(code, AsOutcome(st, now), fuel)
  }

  /** The dispatch loop leaves a stopped machine, or one out of fuel, as it is. */
  lemma ContinueStops(code: seq<byte>, st: Status, now: State, fuel: nat)
    requires !st.Failed? ==> Valid(now)
    requires fuel == 0 || st != Going
    ensures Remaining(code, st, now, fuel) == AsOutcome(st, now)
  {
  }

  /** One more step of the dispatch loop from a running machine. */
  lemma ContinueStep(code: seq<byte>, before: State, st: Status, now: State, fuel: nat)
    requires Valid(before) && fuel > 0
    requires !st.Failed? ==> Valid(now)
    requires Reports(Semantics.Step(code, before), st, now)
    ensures Remaining(code, Going, before, fuel) == Remaining(code, st, now, fuel - 1)
  {
    assert AsOutcome(st, now) == Semantics.Step(code, before);
  }

  /** `vm_puts` stops at the first NUL: the prefix before it is what it writes. */
  lemma {:induction false} UntilNulPrefix(s: string, i: nat)
    requires i <= |s| && (i == |s| || s[i] == '\0')
    requires forall j :: 0 <= j < i ==> s[j] != '\0'
    ensures Printer.UntilNul(s) == s[..i]
  {
    if i > 0 {
      UntilNulPrefix(s[1..], i - 1);
      assert s[1..][..i - 1] == s[1..i];
    }
  }

  class Vm {
    const code: seq<byte>
    const locals: array<Value>
    const frames: array<Frame>
    var index: int
    var func: int
    var base: int
    var depth: int
    var heap: Heap
    var next: Handle
    var maxlen: int
    var stackEnd: int
    var out: string

    /** The state this machine is in. */
    ghost function Model(): State
      reads this, locals, frames
    {
      State(index, func, base, depth, locals[..], frames[..], heap, next, maxlen, stackEnd, out)
    }

    ghost predicate Valid()
      reads this, locals, frames
    {
      Semantics.Valid(Model())
    }

    /** The allocations at the top of `vm_run`: the root frame gets the globals window. */
    constructor(code: seq<byte>, threshold: int)
      ensures Valid() && Model() == Init(threshold) && this.code == code
      ensures fresh(locals) && fresh(frames)
    {
      this.code := code;
      locals := new Value[LocalsNum](_ => Num(0.0));
      frames := new Frame[FrameNum](_ => Frame(0, 0, 0, 0));
      index, func, base, depth := 0, 0, 0, 0;
      heap, next, maxlen, stackEnd, out := map[], 0, threshold, 0, "";
      new;
      frames[0] := frames[0].(nlocals := GlobalsNum);
      assert locals[..] == Init(threshold).locals;
      assert frames[..] == Init(threshold).frames;
    }

    /** `vm_putchar`. */
    method PutChar(c: char)
      modifies this`out
      ensures out == old(out) + [c]
    {
      out := out + [c];
    }

    /** `vm_putn`: the sign, then the digits, most significant first. */
    method PutN(n: int)
      modifies this`out
      ensures out == old(out) + Printer.PutN(n)
      decreases if n < 0 then 1 - n else n
    {
      if n < 0 {
        PutChar('-');
        PutN(-n);
        assert Printer.PutN(n) == "-" + Printer.PutN(-n);
      } else {
        if n >= 10 {
          PutN(n / 10);
        }
        PutChar(Printer.Digit(n % 10));
        assert Printer.PutN(n) == (if n >= 10 then Printer.PutN(n / 10) else "") + [Printer.Digit(n % 10)];
      }
    }

    /** `vm_puts`: the characters up to the first NUL. */
    method PutS(s: string)
      modifies this`out
      ensures out == old(out) + Printer.UntilNul(s)
    {
      var i := 0;
      while i < |s| && s[i] != '\0'
        invariant 0 <= i <= |s|
        invariant forall j :: 0 <= j < i ==> s[j] != '\0'
        invariant out == old(out) + s[..i]
      {
        PutChar(s[i]);
        i := i + 1;
      }
      UntilNulPrefix(s, i);
    }

    /** `vm_putf`: integral numbers only. */
    method PutF(x: real)
      modifies this`out
      ensures out == old(out) + Printer.PutF(x)
    {
      if FMod(x, 1.0) == 0.0 {
        PutN(Trunc(x));
      }
    }

    /** `vm_print`: booleans by `vm_puts`, numbers by `vm_putf`, arrays in brackets. */
    method Print(v: Value) returns (r: Result<(), Fault>)
      requires Ordered(heap)
      modifies this`out
      ensures Emits(Printer.Print(heap, v), r, old(out), out)
      decreases Printer.Rank(v), 1
    {
      match v
      case Bool(b) =>
        if b {
          PutS("true");
          UntilNulPrefix("true", 4);
        } else {
          PutS("false");
          UntilNulPrefix("false", 5);
        }
        r := Ok(());
      case Num(x) =>
        PutF(x);
        r := Ok(());
      case Fun(_) =>
        r := Err(WrongType);
      case Arr(h) =>
        if h !in heap {
          return Err(DanglingHandle(h));
        }
        PutChar('[');
        r := PrintElements(heap[h], h + 1);
        if r.Ok? {
          PutChar(']');
        }
    }

    /** The element loop of `vm_print`: `", "` before every element but the first. */
    method PrintElements(xs: seq<Value>, bound: nat) returns (r: Result<(), Fault>)
      requires Ordered(heap)
      requires forall j :: 0 <= j < |xs| ==> Printer.Rank(xs[j]) < bound
      modifies this`out
      ensures Emits(Printer.PrintFrom(heap, xs, 0, bound), r, old(out), out)
      decreases bound, 0
    {
      ghost var acc := "";
      PrependNothing(Printer.PrintFrom(heap, xs, 0, bound));
      var i := 0;
      while i < |xs|
        invariant 0 <= i <= |xs|
        invariant out == old(out) + acc
        invariant Printer.PrintFrom(heap, xs, 0, bound) == Prepend(acc, Printer.PrintFrom(heap, xs, i, bound))
      {
        ghost var sep := if i != 0 then ", " else "";
        if i != 0 {
          PutChar(',');
          PutChar(' ');
        }
        assert out == old(out) + (acc + sep);
        var e := Print(xs[i]);
        PrintFromStep(heap, xs, i, bound);
        if e.Err? {
          return e;
        }
        ghost var item := Printer.Print(heap, xs[i]).value;
        PrependTwice(acc, sep + item, Printer.PrintFrom(heap, xs, i + 1, bound));
        assert acc + sep + item == acc + (sep + item);
        acc := acc + (sep + item);
        i := i + 1;
      }
      assert acc + "" == acc;
      r := Ok(());
    }

    /** `cur_locals[reg]`. */
    method Get(reg: int) returns (r: Result<Value, Fault>)
      ensures r == Load(Model(), reg)
    {
      var slot := base + reg;
      if 0 <= slot < locals.Length {
        r := Ok(locals[slot]);
      } else {
        r := Err(OutsideArena(slot));
      }
    }

    /** `cur_locals[reg] = v`. */
    method Set(reg: int, v: Value) returns (r: Result<(), Fault>)
      modifies locals
      ensures Follows(Store(old(Model()), reg, v), r, Model())
    {
      var slot := base + reg;
      if 0 <= slot < locals.Length {
        locals[slot] := v;
        r := Ok(());
      } else {
        r := Err(OutsideArena(slot));
      }
    }

    /** A register's number, or the literal of a `_NUM` form. */
    method GetRhs(p: int, k: nat, imm: bool) returns (r: Result<real, Fault>)
      ensures r == Rhs(code, Model(), p, k, imm)
    {
      var w :- Word(code, p, k);
      if imm {
        r := Ok(w as real);
      } else {
        var v :- Get(w);
        r := AsNum(v);
      }
    }

    /** `do_store_reg`, `do_store_num`, `do_store_log`. */
    method DoStore(op: Op) returns (r: Result<(), Fault>)
      requires Valid() && (op.StoreReg? || op.StoreNum? || op.StoreLog?)
      modifies this, locals
      ensures Follows(ExecStore(code, old(Model()), op), r, Model())
    {
      var p := index;
      var to :- Word(code, p, 0);
      var v: Value;
      if op.StoreReg? {
        var from :- Word(code, p, 1);
        v :- Get(from);
      } else if op.StoreNum? {
        var n :- Word(code, p, 1);
        v := Num(n as real);
      } else {
        var b :- ReadBool(code, Next(p, 1));
        v := Bool(b);
      }
      r := Set(to, v);
      if r.Ok? {
        index := if op.StoreLog? then Next(p, 1) + BoolWidth else Next(p, 2);
      }
    }

    /** `do_store_fun`: the function starts after the operands; execution resumes at its end. */
    method DoStoreFun() returns (r: Result<(), Fault>)
      requires Valid()
      modifies this, locals
      ensures Follows(ExecStoreFun(code, old(Model())), r, Model())
    {
      var p := index;
      var to :- Word(code, p, 0);
      var end :- Word(code, p, 1);
      r := Set(to, Fun(Next(p, 2)));
      if r.Ok? {
        index := end;
      }
    }

    /** `do_equal` ... `do_greater_than_equal_num`. */
    method DoCompare(c: Cmp, imm: bool) returns (r: Result<(), Fault>)
      requires Valid()
      modifies this, locals
      ensures Follows(ExecCompare(code, old(Model()), c, imm), r, Model())
    {
      var p := index;
      var to :- Word(code, p, 0);
      var lhs :- Word(code, p, 1);
      var v :- Get(lhs);
      var x :- AsNum(v);
      var y :- GetRhs(p, 2, imm);
      r := Set(to, Bool(Holds(c, x, y)));
      if r.Ok? {
        index := Next(p, 3);
      }
    }

    /** `do_add` ... `do_mod_num`. */
    method DoArith(a: ArithOp, imm: bool) returns (r: Result<(), Fault>)
      requires Valid()
      modifies this, locals
      ensures Follows(ExecArith(code, old(Model()), a, imm), r, Model())
    {
      var p := index;
      var to :- Word(code, p, 0);
      var lhs :- Word(code, p, 1);
      var v :- Get(lhs);
      var x :- AsNum(v);
      var y :- GetRhs(p, 2, imm);
      var z :- Apply(a, x, y);
      r := Set(to, Num(z));
      if r.Ok? {
        index := Next(p, 3);
      }
    }

    /** `do_inc`, `do_inc_num`, `do_dec`, `do_dec_num`. */
    method DoUpdate(sub: bool, imm: bool) returns (r: Result<(), Fault>)
      requires Valid()
      modifies this, locals
      ensures Follows(ExecUpdate(code, old(Model()), sub, imm), r, Model())
    {
      var p := index;
      var target :- Word(code, p, 0);
      var v :- Get(target);
      var x :- AsNum(v);
      var y :- GetRhs(p, 1, imm);
      r := Set(target, Num(if sub then x - y else x + y));
      if r.Ok? {
        index := Next(p, 2);
      }
    }

    /** `do_jump_always` and the conditional jumps. */
    method DoJump(op: Op) returns (r: Result<(), Fault>)
      requires Valid() && (op.JumpAlways? || op.JumpIfFalse? || op.JumpIfTrue? || op.JumpIf?)
      modifies this
      ensures Follows(ExecJump(code, old(Model()), op), r, Model())
    {
      var p := index;
      var to :- Word(code, p, 0);
      if op.JumpAlways? {
        index := to;
      } else if op.JumpIf? {
        var lhs :- Word(code, p, 1);
        var v :- Get(lhs);
        var x :- AsNum(v);
        var y :- GetRhs(p, 2, op.imm);
        index := if JumpHolds(op.cond, op.imm, x, y) then to else Next(p, 3);
      } else {
        var from :- Word(code, p, 1);
        var v :- Get(from);
        var b :- AsBool(v);
        index := if b == op.JumpIfTrue? then to else Next(p, 2);
      }
      r := Ok(());
    }

    /** `do_return`: pop the frame, then store into the caller's output register. */
    method DoReturn() returns (r: Result<(), Fault>)
      requires Valid()
      modifies this, locals
      ensures Follows(ExecReturn(code, old(Model())), r, Model())
    {
      var from :- Word(code, index, 0);
      var v :- Get(from);
      if depth == 0 {
        return Err(FrameUnderflow);
      }
      depth := depth - 1;
      var caller := frames[depth];
      base := base - caller.nlocals;
      func := caller.func;
      index := caller.index;
      r := Set(caller.outreg, v);
    }

    /** `do_length`. */
    method DoLength() returns (r: Result<(), Fault>)
      requires Valid()
      modifies this, locals
      ensures Follows(ExecLength(code, old(Model())), r, Model())
    {
      var p := index;
      var outreg :- Word(code, p, 0);
      var reg :- Word(code, p, 1);
      var v :- Get(reg);
      var h :- AsArray(heap, v);
      r := Set(outreg, Num(|heap[h]| as real));
      if r.Ok? {
        index := Next(p, 2);
      }
    }

    /** `do_index` and `do_index_num`. */
    method DoIndex(imm: bool) returns (r: Result<(), Fault>)
      requires Valid()
      modifies this, locals
      ensures Follows(ExecIndex(code, old(Model()), imm), r, Model())
    {
      var p := index;
      var outreg :- Word(code, p, 0);
      var reg :- Word(code, p, 1);
      var w :- Word(code, p, 2);
      var i: int;
      if imm {
        i := w;
      } else {
        var u :- Get(w);
        var x :- AsNum(u);
        i := Trunc(x);
      }
      var v :- Get(reg);
      var h :- AsArray(heap, v);
      if !(0 <= i < |heap[h]|) {
        return Err(IndexOutOfRange(h, i));
      }
      r := Set(outreg, heap[h][i]);
      if r.Ok? {
        index := Next(p, 3);
      }
    }

    /** `do_println`. */
    method DoPrintln() returns (r: Result<(), Fault>)
      requires Valid()
      modifies this
      ensures Follows(ExecPrintln(code, old(Model())), r, Model())
    {
      var p := index;
      var from :- Word(code, p, 0);
      var v :- Get(from);
      index := Next(p, 1);
      r := Print(v);
      if r.Ok? {
        PutChar('\n');
      }
    }

    /** `do_putchar`: the number cast to a `char`. */
    method DoPutchar() returns (r: Result<(), Fault>)
      requires Valid()
      modifies this
      ensures Follows(ExecPutchar(code, old(Model())), r, Model())
    {
      var p := index;
      var from :- Word(code, p, 0);
      var v :- Get(from);
      var x :- AsNum(v);
      index := Next(p, 1);
      PutChar((Trunc(x) % 256) as char);
      r := Ok(());
    }

    /** The argument loop of the call opcodes: argument k goes to slot `next + k` of the arena. */
    method CopyArguments(at: int, next: int, count: nat) returns (r: Result<(), Fault>)
      modifies locals
      ensures Follows(CopyArgs(code, at, old(locals[..]), base, next, count), r, locals[..])
    {
      var argno := 0;
      while argno < count
        invariant 0 <= argno <= count
        invariant CopyArgs(code, at, old(locals[..]), base, next, argno) == Ok(locals[..])
      {
        var regno := ReadInt(code, at + WordWidth * argno);
        var fault: Fault;
        if regno.Err? {
          fault := regno.error;
        } else {
          var src, dst := base + regno.value, next + argno;
          if !(0 <= src < locals.Length) {
            fault := OutsideArena(src);
          } else if !(0 <= dst < locals.Length) {
            fault := OutsideArena(dst);
          } else {
            locals[dst] := locals[src];
            argno := argno + 1;
            continue;
          }
        }
        CopyArgsStops(code, at, old(locals[..]), base, next, argno + 1, count);
        return Err(fault);
      }
      r := Ok(());
    }

    /** The frame push shared by the call opcodes; the callee's first word is its window size. */
    method EnterFrame(outreg: int, resume: int, entry: int, rec: bool) returns (r: Result<(), Fault>)
      requires Valid()
      modifies this, frames
      ensures Follows(Enter(code, old(Model()), outreg, resume, entry, rec), r, Model())
    {
      if depth + 1 >= FrameNum {
        return Err(FrameOverflow);
      }
      var nlocals :- ReadInt(code, entry);
      var next := base + frames[depth].nlocals;
      if nlocals < 0 {
        return Err(BadOperand(entry));
      }
      if next + nlocals > LocalsNum {
        return Err(ArenaOverflow);
      }
      frames[depth] := frames[depth].(index := resume, func := func, outreg := outreg);
      frames[depth + 1] := frames[depth + 1].(nlocals := nlocals);
      index, func, base, depth := entry + WordWidth, entry, next, depth + 1;
      if rec {
        stackEnd := next + nlocals;
      }
      r := Ok(());
    }

    /** `do_call`, `do_static_call`, `do_rec`: copy the arguments, then push the frame. */
    method DoCall(op: Op) returns (r: Result<(), Fault>)
      requires Valid() && (op.Call? || op.StaticCall? || op.Rec?)
      modifies this, locals, frames
      ensures Follows(ExecCall(code, old(Model()), op), r, Model())
    {
      var p := index;
      var outreg :- Word(code, p, 0);
      var target :- if op.Rec? then Ok(func) else Word(code, p, 1);
      var nargs :- Word(code, p, CountWord(op));
      r := CallWithArguments(op, outreg, target, if nargs < 0 then 0 else nargs);
    }

    /** The argument loop, then the frame push. */
    method CallWithArguments(op: Op, outreg: int, target: int, count: nat) returns (r: Result<(), Fault>)
      requires Valid()
      modifies this, locals, frames
      ensures Follows(CallWith(code, old(Model()), op, outreg, target, count), r, Model())
    {
      var argsAt := Next(index, CountWord(op) + 1);
      var next := base + frames[depth].nlocals;
      ghost var s := Model();
      r := CopyArguments(argsAt, next, count);
      if r.Err? {
        return;
      }
      CopyArgsBelow(code, argsAt, s.locals, s.base, next, count, s.next);
      r := Invoke(op, outreg, target, argsAt + WordWidth * count);
    }

    /** The end of the call opcodes: find the entry, then push the frame. */
    method Invoke(op: Op, outreg: int, target: int, resume: int) returns (r: Result<(), Fault>)
      requires Valid()
      modifies this, frames
      ensures Follows(CallInto(code, old(Model()), op, outreg, target, resume), r, Model())
    {
      var entry := target;
      if op.Call? {
        var v :- Get(target);
        entry :- AsFun(v);
      }
      r := EnterFrame(outreg, resume, entry, op.Rec?);
    }

    /** The collection at the head of `do_array`, with the current window's top as root boundary. */
    method Collect()
      requires Valid()
      modifies this
      ensures Model() == Collected(old(Model()))
    {
      var top := base + frames[depth].nlocals;
      stackEnd := top;
      heap := Collector.Collect(heap, locals[..top]);
      maxlen := 2 + |heap| * 8;
    }

    /** `do_array`. */
    method DoArray() returns (r: Result<(), Fault>)
      requires Valid()
      modifies this, locals
      ensures Follows(ExecArray(code, old(Model())), r, Model())
    {
      var p := index;
      if |heap| >= maxlen {
        Collect();
      }
      assert Model() == Prepared(old(Model()));
      var outreg :- Word(code, p, 0);
      var n :- Word(code, p, 1);
      if n < 0 {
        return Err(BadOperand(Next(p, 1)));
      }
      r := AllocateArray(outreg, n);
    }

    /** The allocation of `do_array`: gather the listed registers, then store the new array's handle. */
    method AllocateArray(outreg: int, n: nat) returns (r: Result<(), Fault>)
      requires Valid()
      modifies this, locals
      ensures Follows(Allocate(code, old(Model()), outreg, n), r, Model())
    {
      var at := Next(index, 2);
      var elems :- GatherElements(at, n);
      var h := next;
      heap := heap[h := elems];
      next := h + 1;
      r := Set(outreg, Arr(h));
      if r.Ok? {
        index := at + WordWidth * n;
      }
    }

    /** The element loop of `do_array`: the listed registers' values, in order. */
    method GatherElements(at: int, n: nat) returns (r: Result<seq<Value>, Fault>)
      requires Valid()
      ensures r == Gather(code, at, Model(), n)
    {
      var elems := [];
      var i := 0;
      while i < n
        invariant 0 <= i <= n
        invariant Gather(code, at, Model(), i) == Ok(elems)
      {
        var reg := ReadInt(code, at + WordWidth * i);
        var v: Result<Value, Fault>;
        if reg.Ok? {
          v := Get(reg.value);
        }
        if reg.Err? || v.Err? {
          GatherStops(code, at, Model(), i + 1, n);
          return if reg.Err? then Err(reg.error) else Err(v.error);
        }
        elems := elems + [v.value];
        i := i + 1;
      }
      r := Ok(elems);
    }

    /** The dispatch table: the handler of every opcode but `EXIT`. */
    method Dispatch(op: Op) returns (r: Result<(), Fault>)
      requires Valid() && !op.Exit?
      modifies this, locals, frames
      ensures Follows(ExecOp(code, old(Model()), op), r, Model())
    {
      match op
      case StoreReg => r := DoStore(op);
      case StoreNum => r := DoStore(op);
      case StoreLog => r := DoStore(op);
      case StoreFun => r := DoStoreFun();
      case Compare(c, imm) => r := DoCompare(c, imm);
      case JumpAlways => r := DoJump(op);
      case JumpIfFalse => r := DoJump(op);
      case JumpIfTrue => r := DoJump(op);
      case JumpIf(_, _) => r := DoJump(op);
      case Inc(imm) => r := DoUpdate(false, imm);
      case Dec(imm) => r := DoUpdate(true, imm);
      case Arith(a, imm) => r := DoArith(a, imm);
      case Call => r := DoCall(op);
      case StaticCall => r := DoCall(op);
      case Rec => r := DoCall(op);
      case Return => r := DoReturn();
      case Println => r := DoPrintln();
      case Putchar => r := DoPutchar();
      case Array => r := DoArray();
      case Length => r := DoLength();
      case Index => r := DoIndex(false);
      case IndexNum => r := DoIndex(true);
    }

    /** `vm_fetch` and `run_next_op`: decode the opcode at the cursor and run its handler. */
    method Step() returns (st: Status)
      requires Valid()
      modifies this, locals, frames
      ensures Reports(Semantics.Step(code, old(Model())), st, Model())
      ensures !st.Failed? ==> Valid()
    {
      if !(0 <= index < |code|) {
        return Failed(Truncated(index));
      }
      match Decode(code[index])
      case None =>
        st := Failed(UnknownOpcode(index));
      case Some(op) =>
        if op.Exit? {
          return Stopped;
        }
        var r := Dispatch(op);
        st := if r.Ok? then Going else Failed(r.error);
    }

    /** The dispatch loop of `vm_run`, for at most `fuel` opcodes. */
    method Run(fuel: nat) returns (st: Status)
      requires Valid()
      modifies this, locals, frames
      ensures Reports(Semantics.Run(code, old(Model()), fuel), st, Model())
    {
      ghost var goal := Semantics.Run(code, Model(), fuel);
      st := Going;
      var k := 0;
      while k < fuel && st == Going
        invariant 0 <= k <= fuel
        invariant !st.Failed? ==> Valid()
        invariant goal == Remaining(code, st, Model(), fuel - k)
      {
        ghost var before := Model();
        st := Step();
        ContinueStep(code, before, st, Model(), fuel - k);
        k := k + 1;
      }
      ContinueStops(code, st, Model(), fuel - k);
      ReportsOutcome(st, Model());
    }
  }

  /** `vm_run` on a program: a fresh machine, then the dispatch loop; what it wrote, and how it stopped. */
  method RunProgram(code: seq<byte>, threshold: int, fuel: nat) returns (st: Status, out: string)
    ensures match Semantics.Run(code, Init(threshold), fuel)
      case Running(t) => st == Going && out == t.out
      case Halted(t) => st == Stopped && out == t.out
      case Faulted(f) => st == Failed(f)
  {
    var vm := new Vm(code, threshold);
    st := vm.Run(fuel);
    out := vm.out;
  }
}
