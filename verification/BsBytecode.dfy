/** The instruction set of bs_bytecode.h: instructions, their bytes and the decoding of bytes. */
module BsBytecode {
  import opened BsAst

  type byte = n: int | 0 <= n < 256
  type short = n: int | 0 <= n < 65536

  const MAX_STACK: nat := 1024
  const MAX_LOCALS: nat := 256
  const MAX_CONSTANTS: nat := 256
  const MAX_JUMP: nat := 65535

  /** BinaryOp(op) stands for the eleven instructions from OP_ADD to OP_LESS_EQUAL. */
  datatype Instr =
    | Halt
    | Constant(index: byte)
    | PushNull
    | PushTrue
    | PushFalse
    | Pop
    | BinaryOp(op: Op)
    | Negate
    | Not
    | DefineGlobal(index: byte)
    | GetGlobal(index: byte)
    | SetGlobal(index: byte)
    | GetLocal(slot: byte)
    | SetLocal(slot: byte)
    | Jump(distance: short)
    | JumpIfFalse(distance: short)
    | Loop(distance: short)
    | CallValue(argc: byte)
    | CallCommand(index: byte, argc: byte)
    | PrintLine
    | PrintRaw
    | ReturnTop
    | Unknown(code: byte)

  function OpCode(op: Op): byte {
    match op
    case Plus => 6
    case Minus => 7
    case Star => 8
    case Slash => 9
    case Percent => 10
    case EqualEqual => 13
    case BangEqual => 14
    case Greater => 15
    case GreaterEqual => 16
    case Less => 17
    case LessEqual => 18
    case _ => 255
  }

  predicate HasOpCode(op: Op) { OpCode(op) != 255 }

  function Encode(i: Instr): (bytes: seq<byte>)
    ensures 1 <= |bytes| <= 3
  {
    match i
    case Halt => [0]
    case Constant(k) => [1, k]
    case PushNull => [2]
    case PushTrue => [3]
    case PushFalse => [4]
    case Pop => [5]
    case BinaryOp(op) => [OpCode(op)]
    case Negate => [11]
    case Not => [12]
    case DefineGlobal(k) => [19, k]
    case GetGlobal(k) => [20, k]
    case SetGlobal(k) => [21, k]
    case GetLocal(slot) => [22, slot]
    case SetLocal(slot) => [23, slot]
    case Jump(d) => [24, d / 256, d % 256]
    case JumpIfFalse(d) => [25, d / 256, d % 256]
    case Loop(d) => [26, d / 256, d % 256]
    case CallValue(argc) => [27, argc]
    case CallCommand(k, argc) => [28, k, argc]
    case PrintLine => [29]
    case PrintRaw => [30]
    case ReturnTop => [31]
    case Unknown(b) => [b]
  }

  /** The number of operand bytes an opcode is followed by. */
  function OperandBytes(b: byte): nat {
    if 24 <= b <= 26 || b == 28 then 2
    else if b == 1 || 19 <= b <= 23 || b == 27 then 1
    else 0
  }

  /** The instruction whose first byte is b, with operand bytes x and y. */
  function DecodeBytes(b: byte, x: byte, y: byte): Instr {
    if b == 0 then Halt
    else if b == 1 then Constant(x)
    else if b == 2 then PushNull
    else if b == 3 then PushTrue
    else if b == 4 then PushFalse
    else if b == 5 then Pop
    else if b == 6 then BinaryOp(Plus)
    else if b == 7 then BinaryOp(Minus)
    else if b == 8 then BinaryOp(Star)
    else if b == 9 then BinaryOp(Slash)
    else if b == 10 then BinaryOp(Percent)
    else if b == 11 then Negate
    else if b == 12 then Not
    else if b == 13 then BinaryOp(EqualEqual)
    else if b == 14 then BinaryOp(BangEqual)
    else if b == 15 then BinaryOp(Greater)
    else if b == 16 then BinaryOp(GreaterEqual)
    else if b == 17 then BinaryOp(Less)
    else if b == 18 then BinaryOp(LessEqual)
    else if b == 19 then DefineGlobal(x)
    else if b == 20 then GetGlobal(x)
    else if b == 21 then SetGlobal(x)
    else if b == 22 then GetLocal(x)
    else if b == 23 then SetLocal(x)
    else if b == 24 then Jump(256 * x + y)
    else if b == 25 then JumpIfFalse(256 * x + y)
    else if b == 26 then Loop(256 * x + y)
    else if b == 27 then CallValue(x)
    else if b == 28 then CallCommand(x, y)
    else if b == 29 then PrintLine
    else if b == 30 then PrintRaw
    else if b == 31 then ReturnTop
    else Unknown(b)
  }

  datatype Fetched = Fetched(instr: Instr, next: nat) | OffTheEnd

  /** The instruction at offset ip of a chunk. */
  function Fetch(code: seq<byte>, ip: nat): Fetched {
    if ip >= |code| || ip + OperandBytes(code[ip]) >= |code| then OffTheEnd
    else
      var n := OperandBytes(code[ip]);
      Fetched(DecodeBytes(code[ip], if n > 0 then code[ip + 1] else 0, if n > 1 then code[ip + 2] else 0), ip + 1 + n)
  }

  /** code[at..] begins with the bytes of part. */
  ghost predicate CodeAt(code: seq<byte>, at: nat, part: seq<byte>) {
    at + |part| <= |code| && code[at..at + |part|] == part
  }

  lemma CodeAtSplit(code: seq<byte>, at: nat, a: seq<byte>, b: seq<byte>)
    requires CodeAt(code, at, a + b)
    ensures CodeAt(code, at, a) && CodeAt(code, at + |a|, b)
  {
    assert code[at..at + |a|] == (a + b)[..|a|];
    assert code[at + |a|..at + |a| + |b|] == (a + b)[|a|..];
  }

  predicate Encodable(i: Instr) {
    (i.BinaryOp? ==> HasOpCode(i.op)) && (i.Unknown? ==> i.code > 31)
  }

  /** Decoding undoes encoding: in particular a 16-bit jump distance is read back as it was written. */
  lemma FetchEncode(code: seq<byte>, at: nat, i: Instr)
    requires Encodable(i) && CodeAt(code, at, Encode(i))
    ensures Fetch(code, at) == Fetched(i, at + |Encode(i)|)
  {
    var bytes := Encode(i);
    assert forall k :: 0 <= k < |bytes| ==> code[at + k] == bytes[k];
    assert code[at] == bytes[0] && OperandBytes(bytes[0]) == |bytes| - 1;
  }
}
