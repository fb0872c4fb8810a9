/** What the handlers of `vm_run` promise across instructions: the calling convention, arrays, jumps and operand forms. */
module VmProperties {
  import opened Results
  import opened Values
  import opened Bytecode
  import opened Semantics
  import Collector

  /** The registers an instruction lists, one word each, from position `at` on. */
  predicate ListsRegs(code: seq<byte>, at: int, regs: seq<int>) {
    forall k :: 0 <= k < |regs| ==> ReadInt(code, at + WordWidth * k) == Ok(regs[k])
  }

  /** Where the caller resumes: past the opcode, its fixed operands and its argument registers. */
  function Resume(p: int, op: Op, nargs: int): int {
    Next(p, CountWord(op) + 1) + WordWidth * (if nargs < 0 then 0 else nargs)
  }

  /**
   * The argument loop writes argument k to slot `next + k`; when every
   * source register lies below the new window, each argument is the caller's
   * value and nothing else in the arena changes.
   */
  lemma {:induction false} CopyArgsPlacement(code: seq<byte>, at: int, locals: seq<Value>, base: int, next: int,
                                             regs: seq<int>)
    requires ListsRegs(code, at, regs)
    requires forall k :: 0 <= k < |regs| ==> 0 <= base + regs[k] < next
    requires 0 <= next && next + |regs| <= |locals|
    ensures CopyArgs(code, at, locals, base, next, |regs|).Ok?
    ensures var r := CopyArgs(code, at, locals, base, next, |regs|).value;
      && (forall k :: 0 <= k < |regs| ==> r[next + k] == locals[base + regs[k]])
      && (forall i :: 0 <= i < |locals| && !(next <= i < next + |regs|) ==> r[i] == locals[i])
  {
    if |regs| > 0 {
      var n := |regs| - 1;
      var front := regs[..n];
      assert ListsRegs(code, at, front) by {
        forall k | 0 <= k < |front|
          ensures ReadInt(code, at + WordWidth * k) == Ok(front[k])
        {
          assert front[k] == regs[k];
        }
      }
      CopyArgsPlacement(code, at, locals, base, next, front);
      assert ReadInt(code, at + WordWidth * n) == Ok(regs[n]);
      var prev := CopyArgs(code, at, locals, base, next, n).value;
      assert prev[base + regs[n]] == locals[base + regs[n]];
      forall k | 0 <= k < n
        ensures CopyArgs(code, at, locals, base, next, |regs|).value[next + k] == locals[base + regs[k]]
      {
        assert front[k] == regs[k];
      }
    }
  }

  /** A call pushes one frame: the caller's frame records where to resume, which function and which result register. */
  lemma CallPushesFrame(code: seq<byte>, s: State, op: Op, outreg: int, nargs: int, t: State)
    requires Valid(s) && (op.Call? || op.StaticCall? || op.Rec?)
    requires Word(code, s.index, 0) == Ok(outreg) && Word(code, s.index, CountWord(op)) == Ok(nargs)
    requires ExecCall(code, s, op) == Ok(t)
    ensures
      && t.depth == s.depth + 1
      && t.base == s.base + s.frames[s.depth].nlocals
      && t.index == t.func + WordWidth
      && ReadInt(code, t.func) == Ok(t.frames[t.depth].nlocals)
      && t.frames[s.depth] == Frame(Resume(s.index, op, nargs), s.func, outreg, s.frames[s.depth].nlocals)
      && (forall d :: 0 <= d < s.depth ==> t.frames[d] == s.frames[d])
      && (op.Call? ==> exists f :: Word(code, s.index, 1) == Ok(f) && Load(s.(locals := t.locals), f) == Ok(Fun(t.func)))
      && (op.StaticCall? ==> Word(code, s.index, 1) == Ok(t.func))
      && (op.Rec? ==> t.func == s.func && t.stackEnd == t.base + t.frames[t.depth].nlocals)
      && (!op.Rec? ==> t.stackEnd == s.stackEnd)
      && t.heap == s.heap && t.next == s.next && t.maxlen == s.maxlen && t.out == s.out
  {
    if op.Call? {
      var f := Word(code, s.index, 1).value;
      assert Word(code, s.index, 1) == Ok(f);
    }
  }

  /** A call's new window starts right after the caller's, and the arena is the argument loop's result. */
  lemma CallCopies(code: seq<byte>, s: State, op: Op, nargs: int, t: State)
    requires Valid(s) && (op.Call? || op.StaticCall? || op.Rec?)
    requires Word(code, s.index, CountWord(op)) == Ok(nargs)
    requires ExecCall(code, s, op) == Ok(t)
    ensures CopyArgs(code, Next(s.index, CountWord(op) + 1), s.locals, s.base, s.base + s.frames[s.depth].nlocals,
                     if nargs < 0 then 0 else nargs) == Ok(t.locals)
  {
  }

  lemma CallBase(code: seq<byte>, s: State, op: Op, t: State)
    requires Valid(s) && (op.Call? || op.StaticCall? || op.Rec?)
    requires ExecCall(code, s, op) == Ok(t)
    ensures t.base == s.base + s.frames[s.depth].nlocals
  {
  }

  /** After the argument loop, register k of the window at `next` holds the k-th listed register's value. */
  lemma ArgumentsInWindow(code: seq<byte>, at: int, s: State, regs: seq<int>, t: State)
    requires ListsRegs(code, at, regs)
    requires 0 <= s.base <= t.base <= |s.locals|
    requires forall k :: 0 <= k < |regs| ==> 0 <= regs[k] < t.base - s.base
    requires CopyArgs(code, at, s.locals, s.base, t.base, |regs|) == Ok(t.locals)
    ensures forall k :: 0 <= k < |regs| ==> Load(t, k).Ok? && Load(t, k) == Load(s, regs[k])
  {
    if |regs| > 0 {
      assert 0 <= t.base + |regs| - 1 < |s.locals|;
    }
    CopyArgsPlacement(code, at, s.locals, s.base, t.base, regs);
  }

  /** The callee's register k holds what the caller's k-th argument register held. */
  lemma CallPlacesArguments(code: seq<byte>, s: State, op: Op, regs: seq<int>, t: State)
    requires Valid(s) && (op.Call? || op.StaticCall? || op.Rec?)
    requires Word(code, s.index, CountWord(op)) == Ok(|regs|)
    requires ListsRegs(code, Next(s.index, CountWord(op) + 1), regs)
    requires forall k :: 0 <= k < |regs| ==> 0 <= regs[k] < s.frames[s.depth].nlocals
    requires ExecCall(code, s, op) == Ok(t)
    ensures forall k :: 0 <= k < |regs| ==> Load(t, k).Ok? && Load(t, k) == Load(s, regs[k])
  {
    CallCopies(code, s, op, |regs|, t);
    CallBase(code, s, op, t);
    ArgumentsInWindow(code, Next(s.index, CountWord(op) + 1), s, regs, t);
  }

  /** `RETURN` restores the position, function and window recorded in the caller's frame. */
  lemma ReturnPopsFrame(code: seq<byte>, u: State, from: int, r: State)
    requires Valid(u) && Word(code, u.index, 0) == Ok(from)
    requires ExecReturn(code, u) == Ok(r)
    ensures var caller := u.frames[u.depth - 1];
      && u.depth > 0 && r.depth == u.depth - 1
      && r.base == u.base - caller.nlocals && r.func == caller.func && r.index == caller.index
      && r.locals == u.locals[r.base + caller.outreg := u.locals[u.base + from]]
      && r.frames == u.frames && r.heap == u.heap && r.out == u.out
  {
  }

  /**
   * Whatever the callee does to its own window and above, its `RETURN`
   * comes back to the caller: same depth, window and function, resumed after
   * the call, with the result in the call's output register.
   */
  lemma CallThenReturn(code: seq<byte>, s: State, op: Op, outreg: int, nargs: int, t: State,
                       u: State, from: int, r: State)
    requires Valid(s) && (op.Call? || op.StaticCall? || op.Rec?)
    requires Word(code, s.index, 0) == Ok(outreg) && Word(code, s.index, CountWord(op)) == Ok(nargs)
    requires ExecCall(code, s, op) == Ok(t)
    requires Valid(u) && u.depth == t.depth && u.frames[..u.depth] == t.frames[..t.depth]
    requires Word(code, u.index, 0) == Ok(from)
    requires ExecReturn(code, u) == Ok(r)
    ensures
      && r.depth == s.depth && r.base == s.base && r.func == s.func
      && r.index == Resume(s.index, op, nargs)
      && Load(r, outreg) == Load(u, from)
      && |r.locals| == |u.locals|
      && (forall i :: 0 <= i < |u.locals| && i != s.base + outreg ==> r.locals[i] == u.locals[i])
      && r.heap == u.heap && r.out == u.out
  {
    CallPushesFrame(code, s, op, outreg, nargs, t);
    assert forall i :: 0 <= i < u.depth ==> u.frames[i] == u.frames[..u.depth][i] == t.frames[..t.depth][i];
    WindowBaseFrom(u.frames, t.frames, u.depth);
    ReturnPopsFrame(code, u, from, r);
  }

  /**
   * Measured against the caller's state before the call: when the callee
   * leaves every window below its own as the call found it, its `RETURN`
   * gives back the caller's registers, and those of every frame below,
   * unchanged except for the output register.
   */
  lemma CallReturnRestoresCaller(code: seq<byte>, s: State, op: Op, outreg: int, nargs: int, t: State,
                                 u: State, from: int, r: State)
    requires Valid(s) && (op.Call? || op.StaticCall? || op.Rec?)
    requires Word(code, s.index, 0) == Ok(outreg) && Word(code, s.index, CountWord(op)) == Ok(nargs)
    requires ExecCall(code, s, op) == Ok(t)
    requires Valid(u) && u.depth == t.depth && u.frames[..u.depth] == t.frames[..t.depth]
    requires u.locals[..t.base] == t.locals[..t.base]
    requires Word(code, u.index, 0) == Ok(from)
    requires ExecReturn(code, u) == Ok(r)
    ensures Load(r, outreg) == Load(u, from)
    ensures forall i :: 0 <= i < s.base + s.frames[s.depth].nlocals && i != s.base + outreg ==>
      r.locals[i] == s.locals[i]
  {
    CallThenReturn(code, s, op, outreg, nargs, t, u, from, r);
    CallCopies(code, s, op, nargs, t);
    CallBase(code, s, op, t);
    var count := if nargs < 0 then 0 else nargs;
    CopyArgsKeepsBelow(code, Next(s.index, CountWord(op) + 1), s.locals, s.base, t.base, count);
    forall i | 0 <= i < t.base && i != s.base + outreg
      ensures r.locals[i] == s.locals[i]
    {
      assert u.locals[i] == u.locals[..t.base][i] == t.locals[..t.base][i] == t.locals[i];
    }
  }

  /** `CALL` through a register holding a function value enters that function, one frame deeper. */
  lemma CallEntersFunction(code: seq<byte>, u: State, f: int, entry: int, w: State)
    requires Valid(u) && 0 <= f < u.frames[u.depth].nlocals
    requires Word(code, u.index, 1) == Ok(f) && Load(u, f) == Ok(Fun(entry))
    requires ExecCall(code, u, Call) == Ok(w)
    ensures w.func == entry && w.index == entry + WordWidth && w.depth == u.depth + 1
  {
    var outreg := Word(code, u.index, 0).value;
    var nargs := Word(code, u.index, CountWord(Call)).value;
    CallPushesFrame(code, u, Call, outreg, nargs, w);
    CallCopies(code, u, Call, nargs, w);
    var count := if nargs < 0 then 0 else nargs;
    var next := u.base + u.frames[u.depth].nlocals;
    CopyArgsKeepsBelow(code, Next(u.index, CountWord(Call) + 1), u.locals, u.base, next, count);
    assert w.locals[u.base + f] == u.locals[u.base + f];
  }

  /**
   * `STORE_FUN` puts a function value for the code right after its operands
   * into its register and skips to the end of that code; a later `CALL`
   * through the same register enters the function there, past its size word.
   */
  lemma StoreFunThenCall(code: seq<byte>, s: State, t: State, f: int, w: State)
    requires Valid(s) && 0 <= f < s.frames[s.depth].nlocals
    requires Word(code, s.index, 0) == Ok(f)
    requires ExecStoreFun(code, s) == Ok(t)
    requires Word(code, t.index, 1) == Ok(f)
    requires ExecCall(code, t, Call) == Ok(w)
    ensures t.index == Word(code, s.index, 1).value
    ensures w.func == Next(s.index, 2) && w.index == Next(s.index, 2) + WordWidth && w.depth == s.depth + 1
  {
    CallEntersFunction(code, t, f, Next(s.index, 2), w);
  }

  /** `JUMP`: always to the target, nothing else changes. */
  lemma JumpAlwaysMoves(code: seq<byte>, s: State, target: int)
    requires Valid(s) && Word(code, s.index, 0) == Ok(target)
    ensures ExecJump(code, s, JumpAlways) == Ok(s.(index := target))
  {
  }

  /**
   * `JUMP_IF_FALSE` jumps exactly when the register holds `false`,
   * `JUMP_IF_TRUE` exactly when it holds `true`; otherwise both go on past
   * their two operands. A register that holds no boolean is a fault.
   */
  lemma JumpOnBoolean(code: seq<byte>, s: State, target: int, from: int)
    requires Valid(s) && Word(code, s.index, 0) == Ok(target) && Word(code, s.index, 1) == Ok(from)
    requires Load(s, from).Ok?
    ensures var v := Load(s, from).value;
      v.Bool? ==>
        && ExecJump(code, s, JumpIfFalse) == Ok(s.(index := if !v.b then target else Next(s.index, 2)))
        && ExecJump(code, s, JumpIfTrue) == Ok(s.(index := if v.b then target else Next(s.index, 2)))
    ensures !Load(s, from).value.Bool? ==>
      ExecJump(code, s, JumpIfFalse) == Err(WrongType) && ExecJump(code, s, JumpIfTrue) == Err(WrongType)
  {
  }

  /** `JUMP_IF_GREATER_NUM` jumps exactly when the register is at least the literal. */
  lemma GreaterNumJumps(code: seq<byte>, s: State, target: int, lhs: int, n: int, x: real)
    requires Valid(s)
    requires Word(code, s.index, 0) == Ok(target) && Word(code, s.index, 1) == Ok(lhs)
    requires Word(code, s.index, 2) == Ok(n) && Load(s, lhs) == Ok(Num(x))
    ensures ExecJump(code, s, JumpIf(Gt, true)) == Ok(s.(index := if x >= n as real then target else Next(s.index, 3)))
  {
  }

  /**
   * `INDEX` and `INDEX_NUM` read element k of the array, where k is the
   * literal or the register's number truncated toward zero; an index outside
   * the array is a fault naming the array and the index.
   */
  lemma IndexReads(code: seq<byte>, s: State, imm: bool, outreg: int, reg: int, w: int, x: real, h: Handle)
    requires Valid(s)
    requires Word(code, s.index, 0) == Ok(outreg) && Word(code, s.index, 1) == Ok(reg)
    requires Word(code, s.index, 2) == Ok(w)
    requires !imm ==> Load(s, w) == Ok(Num(x))
    requires Load(s, reg) == Ok(Arr(h)) && h in s.heap
    requires 0 <= s.base + outreg < |s.locals|
    ensures var k := if imm then w else Trunc(x);
      && (0 <= k < |s.heap[h]| ==>
            ExecIndex(code, s, imm) == Ok(s.(locals := s.locals[s.base + outreg := s.heap[h][k]], index := Next(s.index, 3))))
      && (!(0 <= k < |s.heap[h]|) ==> ExecIndex(code, s, imm) == Err(IndexOutOfRange(h, k)))
  {
  }

  /** `RETURN` in the root frame has no caller to return to. */
  lemma ReturnAtRoot(code: seq<byte>, s: State, from: int)
    requires Valid(s) && s.depth == 0
    requires Word(code, s.index, 0) == Ok(from) && Load(s, from).Ok?
    ensures ExecReturn(code, s) == Err(FrameUnderflow)
  {
  }

  /** The element loop reads the listed registers in order. */
  lemma {:induction false} GatherContents(code: seq<byte>, at: int, s: State, regs: seq<int>)
    requires LocalsBelow(s.locals, s.next)
    requires ListsRegs(code, at, regs)
    requires forall k :: 0 <= k < |regs| ==> Load(s, regs[k]).Ok?
    ensures Gather(code, at, s, |regs|).Ok?
    ensures forall k :: 0 <= k < |regs| ==> Load(s, regs[k]) == Ok(Gather(code, at, s, |regs|).value[k])
  {
    if |regs| > 0 {
      var n := |regs| - 1;
      var front := regs[..n];
      assert ListsRegs(code, at, front) by {
        forall k | 0 <= k < |front|
          ensures ReadInt(code, at + WordWidth * k) == Ok(front[k])
        {
          assert front[k] == regs[k];
        }
      }
      GatherContents(code, at, s, front);
      assert ReadInt(code, at + WordWidth * n) == Ok(regs[n]);
      forall k | 0 <= k < n
        ensures Load(s, regs[k]) == Ok(Gather(code, at, s, |regs|).value[k])
      {
        assert front[k] == regs[k];
      }
    }
  }

  /**
   * `ARRAY` with readable element registers allocates a fresh array holding
   * their values in order, under a handle no live array had, and puts it in
   * the output register.
   */
  lemma ArrayAllocates(code: seq<byte>, s: State, outreg: int, regs: seq<int>)
    requires Valid(s)
    requires Word(code, s.index, 0) == Ok(outreg) && Word(code, s.index, 1) == Ok(|regs|)
    requires ListsRegs(code, Next(s.index, 2), regs)
    requires forall k :: 0 <= k < |regs| ==> Load(s, regs[k]).Ok?
    requires 0 <= s.base + outreg < LocalsNum
    ensures ExecArray(code, s).Ok?
    ensures var t := ExecArray(code, s).value;
      && s.next !in s.heap && s.next in t.heap && t.next == s.next + 1
      && Load(t, outreg) == Ok(Arr(s.next))
      && |t.heap[s.next]| == |regs|
      && (forall k :: 0 <= k < |regs| ==> Load(s, regs[k]) == Ok(t.heap[s.next][k]))
      && t.index == Next(s.index, 2) + WordWidth * |regs|
      && t.out == s.out && t.depth == s.depth && t.base == s.base
  {
    var s1 := if |s.heap| >= s.maxlen then Collected(s) else s;
    assert s1.locals == s.locals && s1.base == s.base && s1.next == s.next;
    assert forall k :: 0 <= k < |regs| ==> Load(s1, regs[k]) == Load(s, regs[k]);
    GatherContents(code, Next(s.index, 2), s1, regs);
  }

  /** `ARRAY` adds exactly the new array to the prepared heap and keeps its threshold and root boundary. */
  lemma ArrayExtendsPrepared(code: seq<byte>, s: State, t: State)
    requires Valid(s)
    requires ExecArray(code, s) == Ok(t)
    ensures var s1 := Prepared(s);
      && t.heap == s1.heap[s.next := t.heap[s.next]] && t.next == s.next + 1
      && t.maxlen == s1.maxlen && t.stackEnd == s1.stackEnd
  {
  }

  /**
   * The collection rule of `ARRAY`: once the live count reaches the
   * threshold, unreachable arrays are dropped, everything the current window
   * reaches survives unchanged, and the threshold becomes 2 + 8 * survivors;
   * below the threshold the heap only gains the new array.
   */
  lemma ArrayCollects(code: seq<byte>, s: State, t: State)
    requires Valid(s)
    requires ExecArray(code, s) == Ok(t)
    ensures var top := s.base + s.frames[s.depth].nlocals;
      && t.next == s.next + 1 && s.next in t.heap
      && (forall h :: h in t.heap && h != s.next ==> h in s.heap && t.heap[h] == s.heap[h])
      && (|s.heap| >= s.maxlen ==>
            && t.maxlen == 2 + 8 * (|t.heap| - 1) && t.stackEnd == top
            && t.heap.Keys == Collector.Collect(s.heap, s.locals[..top]).Keys + {s.next}
            && (forall i :: 0 <= i < top && s.locals[i].Arr? && s.locals[i].handle in s.heap ==>
                  s.locals[i].handle in t.heap))
      && (|s.heap| < s.maxlen ==>
            && t.maxlen == s.maxlen && t.stackEnd == s.stackEnd
            && t.heap.Keys == s.heap.Keys + {s.next})
  {
    ArrayExtendsPrepared(code, s, t);
    PreparedRule(s, t.heap[s.next], t);
  }

  lemma PreparedRule(s: State, elems: seq<Value>, t: State)
    requires Valid(s)
    requires var s1 := Prepared(s);
      && t.heap == s1.heap[s.next := elems] && t.next == s.next + 1
      && t.maxlen == s1.maxlen && t.stackEnd == s1.stackEnd
    ensures var top := s.base + s.frames[s.depth].nlocals;
      && t.next == s.next + 1 && s.next in t.heap
      && (forall h :: h in t.heap && h != s.next ==> h in s.heap && t.heap[h] == s.heap[h])
      && (|s.heap| >= s.maxlen ==>
            && t.maxlen == 2 + 8 * (|t.heap| - 1) && t.stackEnd == top
            && t.heap.Keys == Collector.Collect(s.heap, s.locals[..top]).Keys + {s.next}
            && (forall i :: 0 <= i < top && s.locals[i].Arr? && s.locals[i].handle in s.heap ==>
                  s.locals[i].handle in t.heap))
      && (|s.heap| < s.maxlen ==>
            && t.maxlen == s.maxlen && t.stackEnd == s.stackEnd
            && t.heap.Keys == s.heap.Keys + {s.next})
  {
    var top := s.base + s.frames[s.depth].nlocals;
    if |s.heap| >= s.maxlen {
      KeptRoots(s.heap, s.locals, top, s.next, elems, t.heap);
    }
  }

  /** Adding a added array to a collected heap keeps what the roots reach and counts one more array. */
  lemma KeptRoots(heap: Heap, locals: seq<Value>, top: nat, added: nat, elems: seq<Value>, after: Heap)
    requires top <= |locals| && HeapBelow(heap, added)
    requires after == Collector.Collect(heap, locals[..top])[added := elems]
    ensures |after| == |Collector.Collect(heap, locals[..top])| + 1
    ensures forall i :: 0 <= i < top && locals[i].Arr? && locals[i].handle in heap ==> locals[i].handle in after
  {
    var kept := Collector.Collect(heap, locals[..top]);
    assert added !in kept;
    forall i | 0 <= i < top && locals[i].Arr? && locals[i].handle in heap
      ensures locals[i].handle in after
    {
      assert locals[..top][i] == locals[i];
    }
  }


  /** `LENGTH` of an array register yields its element count. */
  lemma ArrayThenLength(code: seq<byte>, s: State, outreg: int, regs: seq<int>, t: State, dst: int)
    requires Valid(s)
    requires Word(code, s.index, 0) == Ok(outreg) && Word(code, s.index, 1) == Ok(|regs|)
    requires ListsRegs(code, Next(s.index, 2), regs)
    requires forall k :: 0 <= k < |regs| ==> Load(s, regs[k]).Ok?
    requires 0 <= s.base + outreg < LocalsNum && 0 <= s.base + dst < LocalsNum
    requires ExecArray(code, s) == Ok(t)
    requires Word(code, t.index, 0) == Ok(dst) && Word(code, t.index, 1) == Ok(outreg)
    ensures ExecLength(code, t).Ok? && Load(ExecLength(code, t).value, dst) == Ok(Num(|regs| as real))
  {
    ArrayAllocates(code, s, outreg, regs);
  }

  /** `INDEX_NUM` with literal k on a fresh array yields the k-th element register's value. */
  lemma ArrayThenIndex(code: seq<byte>, s: State, outreg: int, regs: seq<int>, t: State, dst: int, k: int)
    requires Valid(s)
    requires Word(code, s.index, 0) == Ok(outreg) && Word(code, s.index, 1) == Ok(|regs|)
    requires ListsRegs(code, Next(s.index, 2), regs)
    requires forall j :: 0 <= j < |regs| ==> Load(s, regs[j]).Ok?
    requires 0 <= s.base + outreg < LocalsNum && 0 <= s.base + dst < LocalsNum
    requires ExecArray(code, s) == Ok(t)
    requires Word(code, t.index, 0) == Ok(dst) && Word(code, t.index, 1) == Ok(outreg) && Word(code, t.index, 2) == Ok(k)
    ensures
      && (0 <= k < |regs| ==> ExecIndex(code, t, true).Ok? && Load(ExecIndex(code, t, true).value, dst) == Load(s, regs[k]))
      && (!(0 <= k < |regs|) ==> ExecIndex(code, t, true) == Err(IndexOutOfRange(s.next, k)))
  {
    ArrayAllocates(code, s, outreg, regs);
  }

  /**
   * A conditional jump takes its branch exactly when the comparison opcode of
   * the same kind and operands stores `true`; `JUMP_IF_GREATER_NUM` is the
   * exception (see `GreaterNumJumpsOnEqual`).
   */
  lemma JumpIfMatchesCompare(cmpCode: seq<byte>, jumpCode: seq<byte>, s: State, c: Cmp, imm: bool,
                             dst: int, target: int)
    requires Valid(s) && !(c == Gt && imm)
    requires Word(cmpCode, s.index, 0) == Ok(dst) && Word(jumpCode, s.index, 0) == Ok(target)
    requires Word(cmpCode, s.index, 1) == Word(jumpCode, s.index, 1)
    requires Word(cmpCode, s.index, 2) == Word(jumpCode, s.index, 2)
    requires ExecCompare(cmpCode, s, c, imm).Ok?
    ensures ExecJump(jumpCode, s, JumpIf(c, imm)).Ok?
    ensures var t := ExecCompare(cmpCode, s, c, imm).value;
      var j := ExecJump(jumpCode, s, JumpIf(c, imm)).value;
      && Load(t, dst).Ok? && Load(t, dst).value.Bool?
      && j.index == (if Load(t, dst).value.b then target else Next(s.index, 3))
      && j == s.(index := j.index)
  {
  }

  /**
   * As written, `JUMP_IF_GREATER_NUM` jumps when its operands are equal,
   * while `GREATER_NUM` on the same operands stores `false`.
   */
  lemma GreaterNumJumpsOnEqual(cmpCode: seq<byte>, jumpCode: seq<byte>, s: State, dst: int, target: int,
                               lhs: int, n: int)
    requires Valid(s)
    requires Word(cmpCode, s.index, 0) == Ok(dst) && Word(jumpCode, s.index, 0) == Ok(target)
    requires Word(cmpCode, s.index, 1) == Ok(lhs) && Word(jumpCode, s.index, 1) == Ok(lhs)
    requires Word(cmpCode, s.index, 2) == Ok(n) && Word(jumpCode, s.index, 2) == Ok(n)
    requires Load(s, lhs) == Ok(Num(n as real)) && 0 <= s.base + dst < LocalsNum
    ensures ExecCompare(cmpCode, s, Gt, true).Ok?
    ensures Load(ExecCompare(cmpCode, s, Gt, true).value, dst) == Ok(Bool(false))
    ensures ExecJump(jumpCode, s, JumpIf(Gt, true)) == Ok(s.(index := target))
  {
  }

  /** With literal n in one code and a register holding n in the other, both read the same right operand. */
  lemma RhsForms(immCode: seq<byte>, regCode: seq<byte>, s: State, p: int, k: nat, n: int, r: int)
    requires Word(immCode, p, k) == Ok(n) && Word(regCode, p, k) == Ok(r)
    requires Load(s, r) == Ok(Num(n as real))
    ensures Rhs(immCode, s, p, k, true) == Rhs(regCode, s, p, k, false) == Ok(n as real)
  {
  }

  /** `EQUAL_NUM` ... `GREATER_THAN_EQUAL_NUM` with literal n behave as the register forms whose right register holds n. */
  lemma CompareFormsAgree(immCode: seq<byte>, regCode: seq<byte>, s: State, c: Cmp, n: int, r: int)
    requires Valid(s)
    requires Word(immCode, s.index, 0) == Word(regCode, s.index, 0)
    requires Word(immCode, s.index, 1) == Word(regCode, s.index, 1)
    requires Word(immCode, s.index, 2) == Ok(n) && Word(regCode, s.index, 2) == Ok(r)
    requires Load(s, r) == Ok(Num(n as real))
    ensures ExecCompare(immCode, s, c, true) == ExecCompare(regCode, s, c, false)
  {
    RhsForms(immCode, regCode, s, s.index, 2, n, r);
  }

  /** `ADD_NUM` ... `MOD_NUM` with literal n behave as the register forms whose right register holds n. */
  lemma ArithFormsAgree(immCode: seq<byte>, regCode: seq<byte>, s: State, a: ArithOp, n: int, r: int)
    requires Valid(s)
    requires Word(immCode, s.index, 0) == Word(regCode, s.index, 0)
    requires Word(immCode, s.index, 1) == Word(regCode, s.index, 1)
    requires Word(immCode, s.index, 2) == Ok(n) && Word(regCode, s.index, 2) == Ok(r)
    requires Load(s, r) == Ok(Num(n as real))
    ensures ExecArith(immCode, s, a, true) == ExecArith(regCode, s, a, false)
  {
    RhsForms(immCode, regCode, s, s.index, 2, n, r);
  }

  /** `INC_NUM` and `DEC_NUM` with literal n behave as `INC` and `DEC` whose right register holds n. */
  lemma UpdateFormsAgree(immCode: seq<byte>, regCode: seq<byte>, s: State, sub: bool, n: int, r: int)
    requires Valid(s)
    requires Word(immCode, s.index, 0) == Word(regCode, s.index, 0)
    requires Word(immCode, s.index, 1) == Ok(n) && Word(regCode, s.index, 1) == Ok(r)
    requires Load(s, r) == Ok(Num(n as real))
    ensures ExecUpdate(immCode, s, sub, true) == ExecUpdate(regCode, s, sub, false)
  {
    RhsForms(immCode, regCode, s, s.index, 1, n, r);
  }

  /**
   * The `_NUM` conditional jumps with literal n behave as the register forms
   * whose right register holds n, except `JUMP_IF_GREATER_NUM`.
   */
  lemma JumpFormsAgree(immCode: seq<byte>, regCode: seq<byte>, s: State, c: Cmp, n: int, r: int)
    requires Valid(s) && c != Gt
    requires Word(immCode, s.index, 0) == Word(regCode, s.index, 0)
    requires Word(immCode, s.index, 1) == Word(regCode, s.index, 1)
    requires Word(immCode, s.index, 2) == Ok(n) && Word(regCode, s.index, 2) == Ok(r)
    requires Load(s, r) == Ok(Num(n as real))
    ensures ExecJump(immCode, s, JumpIf(c, true)) == ExecJump(regCode, s, JumpIf(c, false))
  {
    RhsForms(immCode, regCode, s, s.index, 2, n, r);
  }

  /** A byte produced by `Encode` runs the handler of the opcode it encodes. */
  lemma StepRunsEncoded(code: seq<byte>, s: State, op: Op)
    requires Valid(s) && 0 <= s.index < |code| && code[s.index] == Encode(op)
    ensures Step(code, s) ==
      if op.Exit? then Halted(s)
      else match ExecOp(code, s, op)
        case Ok(t) => Running(t)
        case Err(f) => Faulted(f)
  {
  }
}
