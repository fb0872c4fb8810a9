/**
 * The instruction stream: opcode numbers, the dispatch table registered by
 * `vm_run`, and the fixed-width operand readers.
 */
module Bytecode {
  import opened Results
  import opened Values

  /** One cell of the instruction stream. */
  newtype byte = x: int | 0 <= x < 256

  /** Width of an opcode, and of a register, integer, number or location operand. */
  const OpWidth: int := 1
  const WordWidth: int := 4
  const BoolWidth: int := 1

  const MinInt: int := -0x8000_0000
  const MaxInt: int := 0x7FFF_FFFF

  /** The comparison tested by a comparison or conditional-jump opcode. */
  datatype Cmp = Eq | Ne | Lt | Gt | Le | Ge

  /** The arithmetic of the three-operand arithmetic opcodes. */
  datatype ArithOp = Add | Sub | Mul | Div | Mod

  /**
   * Every opcode that has a handler. `imm` selects the form whose last operand
   * is a numeric literal (`*_NUM`) instead of a register.
   */
  datatype Op =
    | Exit | StoreReg | StoreLog | StoreNum | StoreFun
    | Compare(cmp: Cmp, imm: bool)
    | JumpAlways | JumpIfFalse | JumpIfTrue
    | JumpIf(cond: Cmp, imm: bool)
    | Inc(imm: bool) | Dec(imm: bool)
    | Arith(aop: ArithOp, imm: bool)
    | Call | StaticCall | Rec | Return
    | Println | Putchar
    | Array | Length | Index | IndexNum

  function CmpAt(k: int): Cmp
    requires 0 <= k < 6
  {
    [Eq, Ne, Lt, Gt, Le, Ge][k]
  }

  function ArithAt(k: int): ArithOp
    requires 0 <= k < 5
  {
    [Add, Sub, Mul, Div, Mod][k]
  }

  /**
   * The dispatch table: the handler an opcode byte selects, bytes numbered in
   * the order in which `vm_run` registers the handlers; `None` is an empty
   * (NULL) table entry.
   */
  function Decode(b: byte): (r: Option<Op>)
    ensures r.Some? <==> (b as int) < 56
  {
    var k := b as int;
    if k < 5 then Some([Exit, StoreReg, StoreLog, StoreNum, StoreFun][k])
    else if k < 17 then Some(Compare(CmpAt((k - 5) / 2), (k - 5) % 2 == 1))
    else if k < 20 then Some([JumpAlways, JumpIfFalse, JumpIfTrue][k - 17])
    else if k < 32 then Some(JumpIf(CmpAt((k - 20) / 2), (k - 20) % 2 == 1))
    else if k < 34 then Some(Inc(k == 33))
    else if k < 36 then Some(Dec(k == 35))
    else if k < 46 then Some(Arith(ArithAt((k - 36) / 2), (k - 36) % 2 == 1))
    else if k < 56 then
      Some([Call, StaticCall, Rec, Return, Println, Putchar, Array, Length, Index, IndexNum][k - 46])
    else None
  }

  function CmpIndex(c: Cmp): nat {
    match c
    case Eq => 0 case Ne => 1 case Lt => 2 case Gt => 3 case Le => 4 case Ge => 5
  }

  function ArithIndex(a: ArithOp): nat {
    match a
    case Add => 0 case Sub => 1 case Mul => 2 case Div => 3 case Mod => 4
  }

  function Flag(imm: bool): nat { if imm then 1 else 0 }

  /** The opcode byte an assembler writes for `op`. */
  function Encode(op: Op): (b: byte)
    ensures Decode(b) == Some(op)
  {
    match op
    case Exit => 0
    case StoreReg => 1
    case StoreLog => 2
    case StoreNum => 3
    case StoreFun => 4
    case Compare(c, imm) => (5 + 2 * CmpIndex(c) + Flag(imm)) as byte
    case JumpAlways => 17
    case JumpIfFalse => 18
    case JumpIfTrue => 19
    case JumpIf(c, imm) => (20 + 2 * CmpIndex(c) + Flag(imm)) as byte
    case Inc(imm) => (32 + Flag(imm)) as byte
    case Dec(imm) => (34 + Flag(imm)) as byte
    case Arith(a, imm) => (36 + 2 * ArithIndex(a) + Flag(imm)) as byte
    case Call => 46
    case StaticCall => 47
    case Rec => 48
    case Return => 49
    case Println => 50
    case Putchar => 51
    case Array => 52
    case Length => 53
    case Index => 54
    case IndexNum => 55
  }

  lemma CmpRoundTrip(j: int)
    requires 0 <= j < 6
    ensures CmpIndex(CmpAt(j)) == j
  {
  }

  lemma ArithRoundTrip(j: int)
    requires 0 <= j < 5
    ensures ArithIndex(ArithAt(j)) == j
  {
  }

  /** Each registered opcode has exactly one byte: decoding then encoding is the identity. */
  lemma DecodeEncode(b: byte)
    requires Decode(b).Some?
    ensures Encode(Decode(b).value) == b
  {
    var k := b as int;
    if 5 <= k < 17 {
      CmpRoundTrip((k - 5) / 2);
    } else if 20 <= k < 32 {
      CmpRoundTrip((k - 20) / 2);
    } else if 36 <= k < 46 {
      ArithRoundTrip((k - 36) / 2);
    }
  }

  /** Two's-complement reading of a 32-bit pattern. */
  function Signed32(u: int): (r: int)
    requires 0 <= u < 0x1_0000_0000
    ensures MinInt <= r <= MaxInt
    ensures r % 0x1_0000_0000 == u
  {
    if u <= MaxInt then u else u - 0x1_0000_0000
  }

  /**
   * `read_int`, `read_reg`, `read_num`, `read_loc`: the 32-bit little-endian
   * integer stored at `at`; a read past the end of the code is a fault.
   */
  function ReadInt(code: seq<byte>, at: int): (r: Result<int, Fault>)
    ensures r.Ok? <==> 0 <= at && at + WordWidth <= |code|
    ensures r.Err? ==> r.error == Truncated(at)
    ensures r.Ok? ==> MinInt <= r.value <= MaxInt
  {
    if 0 <= at && at + WordWidth <= |code| then
      Ok(Signed32(code[at] as int + 0x100 * code[at + 1] as int
                  + 0x1_0000 * code[at + 2] as int + 0x100_0000 * code[at + 3] as int))
    else
      Err(Truncated(at))
  }

  /** `read_bool`: one byte holding 0 or 1. */
  function ReadBool(code: seq<byte>, at: int): (r: Result<bool, Fault>)
    ensures r.Ok? <==> 0 <= at < |code| && code[at] as int <= 1
    ensures r.Ok? ==> (r.value <==> code[at] == 1)
  {
    if !(0 <= at && at + BoolWidth <= |code|) then Err(Truncated(at))
    else if code[at] == 0 then Ok(false)
    else if code[at] == 1 then Ok(true)
    else Err(BadOperand(at))
  }

  /** The `k`-th word operand of the instruction whose opcode is at `p`. */
  function Word(code: seq<byte>, p: int, k: nat): Result<int, Fault> {
    ReadInt(code, p + OpWidth + WordWidth * k)
  }

  /** The four bytes an assembler writes for a 32-bit integer operand. */
  function EncodeInt(v: int): (bs: seq<byte>)
    requires MinInt <= v <= MaxInt
    ensures |bs| == WordWidth
  {
    var u := if v < 0 then v + 0x1_0000_0000 else v;
    [(u % 0x100) as byte, (u / 0x100 % 0x100) as byte,
     (u / 0x1_0000 % 0x100) as byte, (u / 0x100_0000) as byte]
  }

  /** Operand round trip: reading back an encoded integer, wherever it sits, yields it. */
  lemma EncodeThenRead(pre: seq<byte>, v: int, post: seq<byte>)
    requires MinInt <= v <= MaxInt
    ensures ReadInt(pre + EncodeInt(v) + post, |pre|) == Ok(v)
  {
    var code := pre + EncodeInt(v) + post;
    var u := if v < 0 then v + 0x1_0000_0000 else v;
    var b0, b1, b2, b3 := u % 0x100, u / 0x100 % 0x100, u / 0x1_0000 % 0x100, u / 0x100_0000;
    assert code[|pre|] as int == b0 && code[|pre| + 1] as int == b1;
    assert code[|pre| + 2] as int == b2 && code[|pre| + 3] as int == b3;
    assert u / 0x100 == b1 + 0x100 * (u / 0x1_0000);
    assert u / 0x1_0000 == b2 + 0x100 * b3;
    assert b0 + 0x100 * b1 + 0x1_0000 * b2 + 0x100_0000 * b3 == u;
  }
}
