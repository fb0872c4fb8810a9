/**
 * The tagged value of the interpreter (the NaN-boxed scalar, as a closed sum
 * type), the heap of arrays owned by the collector, and the faults that end a run.
 */
module Values {
  import opened Results

  /** Opaque index into the collector's object table. */
  type Handle = nat

  /** The four kinds a NaN-boxed value can hold. Numbers are exact reals. */
  datatype Value =
    | Bool(b: bool)
    | Num(n: real)
    | Fun(entry: int)
    | Arr(handle: Handle)

  /** The collector's live arrays; the live count is `|heap|`. */
  type Heap = map<Handle, seq<Value>>

  /** Everything that aborts a run. */
  datatype Fault =
    | UnknownOpcode(at: int)           // no handler registered for the opcode byte
    | Truncated(at: int)               // an operand or opcode lies outside the code
    | BadOperand(at: int)              // an operand whose value the handler cannot use
    | OutsideArena(slot: int)          // a register maps outside the locals arena
    | ArenaOverflow                    // a callee window does not fit in the arena
    | FrameOverflow                    // the frame stack is full
    | FrameUnderflow                   // RETURN from the root frame
    | WrongType                        // a value decoded with the wrong tag
    | DanglingHandle(handle: Handle)   // an array handle the collector no longer holds
    | IndexOutOfRange(handle: Handle, index: int)
    | DivisionByZero

  /** A value refers to no array at or above `bound`. */
  predicate Below(v: Value, bound: nat) {
    !v.Arr? || v.handle < bound
  }

  /** Every array refers only to arrays allocated before it. */
  predicate Ordered(heap: Heap) {
    forall h, i :: h in heap && 0 <= i < |heap[h]| ==> Below(heap[h][i], h)
  }

  /** Every live handle is below the next handle to be allocated. */
  predicate HeapBelow(heap: Heap, bound: nat) {
    forall h :: h in heap ==> h < bound
  }

  /** C's conversion of a double to an integer: truncation toward zero. */
  function Trunc(x: real): (r: int)
    ensures (r as real) <= x < (r as real) + 1.0 || (r as real) - 1.0 < x <= (r as real)
    ensures 0.0 <= x ==> 0 <= r && (r as real) <= x
    ensures x <= 0.0 ==> r <= 0 && x <= (r as real)
  {
    if 0.0 <= x then x.Floor else -((-x).Floor)
  }

  /** The C library's `fmod`: the remainder has the sign of the dividend. */
  function FMod(x: real, y: real): (r: real)
    requires y != 0.0
  {
    x - (Trunc(x / y) as real) * y
  }

  function AsNum(v: Value): (r: Result<real, Fault>)
    ensures r.Ok? <==> v.Num?
    ensures r.Ok? ==> r.value == v.n
  {
    if v.Num? then Ok(v.n) else Err(WrongType)
  }

  function AsBool(v: Value): (r: Result<bool, Fault>)
    ensures r.Ok? <==> v.Bool?
    ensures r.Ok? ==> r.value == v.b
  {
    if v.Bool? then Ok(v.b) else Err(WrongType)
  }

  function AsFun(v: Value): (r: Result<int, Fault>)
    ensures r.Ok? <==> v.Fun?
    ensures r.Ok? ==> r.value == v.entry
  {
    if v.Fun? then Ok(v.entry) else Err(WrongType)
  }

  /** The array a value refers to, as the collector holds it. */
  function AsArray(heap: Heap, v: Value): (r: Result<Handle, Fault>)
    ensures r.Ok? <==> v.Arr? && v.handle in heap
    ensures r.Ok? ==> r.value == v.handle
  {
    if !v.Arr? then Err(WrongType)
    else if v.handle !in heap then Err(DanglingHandle(v.handle))
    else Ok(v.handle)
  }
}
