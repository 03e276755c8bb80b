/** Operations on values (bs_value.c) and the arithmetic of the two engines.
    What this model does not compute (floating point, native commands) is a field of Host,
    an uninterpreted function that both engines share. */
module BsValue {
  import opened BsAst

  datatype Host = Host(
    natives: (string, seq<Value>) -> (Value, string),  // result of a native command and the text it prints
    floatArith: (Op, Value, Value) -> int,             // a + b, a - b, a * b on doubles
    floatLess: (Op, Value, Value) -> bool,             // a < b, a <= b, a > b, a >= b on doubles
    floatEqual: (Value, Value) -> bool,                // a == b on doubles
    floatIsZero: Value -> bool,                        // (double)v == 0.0, for a value that is not an int
    floatNeg: int -> int,
    floatText: int -> string,
    floatDiv: (Value, Value) -> Value,                 // a / b on doubles, as a float
    intDiv: (int, int) -> int,                         // (int64_t)((double)a / (double)b)
    pointerText: int -> string)

  predicate IsNumber(v: Value) { v.Int? || v.Float? }

  predicate IsZero(h: Host, v: Value) { if v.Int? then v.i == 0 else h.floatIsZero(v) }

  /** bs_is_truthy */
  predicate Truthy(h: Host, v: Value) {
    match v
    case Null => false
    case Bool(b) => b
    case Int(i) => i != 0
    case Float(_) => !h.floatIsZero(v)
    case Str(s) => s != ""
    case Function(_, _, _) => true
    case NativePtr(_) => true
  }

  /** bs_values_equal.  Two function values come from two clones, whose bodies are the same
      pointer only when both are NULL. */
  predicate ValuesEqual(h: Host, a: Value, b: Value) {
    match (a, b)
    case (Null, Null) => true
    case (Bool(x), Bool(y)) => x == y
    case (Int(x), Int(y)) => x == y
    case (Float(_), Float(_)) => h.floatEqual(a, b)
    case (Str(x), Str(y)) => x == y
    case (Function(_, _, x), Function(_, _, y)) => x.Nil? && y.Nil?
    case (NativePtr(x), NativePtr(y)) => x == y
    case _ => false
  }

  function Digit(d: nat): char
    requires d < 10
  {
    ('0' as int + d) as char
  }

  function NatText(n: nat): string {
    if n < 10 then [Digit(n)] else NatText(n / 10) + [Digit(n % 10)]
  }

  /** %ld */
  function IntText(i: int): string {
    if i < 0 then "-" + NatText(-i) else NatText(i)
  }

  /** bs_print_value */
  function PrintText(h: Host, v: Value): string {
    match v
    case Null => "null"
    case Bool(b) => if b then "true" else "false"
    case Int(i) => IntText(i)
    case Float(f) => h.floatText(f)
    case Str(s) => s
    case Function(name, _, _) => "<function " + name + ">"
    case NativePtr(p) => h.pointerText(p)
  }

  /** The text string_concat gives to one operand: functions and pointers read as "null". */
  function ConcatText(h: Host, v: Value): string {
    if v.Function? || v.NativePtr? then "null" else PrintText(h, v)
  }

  /** C's '/' and '%' truncate towards zero. */
  function CDiv(a: int, b: int): int
    requires b != 0
  {
    if a >= 0 then a / b else -((-a) / b)
  }

  function CMod(a: int, b: int): int
    requires b != 0
  {
    a - b * CDiv(a, b)
  }

  predicate IntCompare(op: Op, a: int, b: int) {
    match op
    case Less => a < b
    case LessEqual => a <= b
    case Greater => a > b
    case GreaterEqual => a >= b
    case _ => false
  }

  /** What the tree-walk interpreter makes of "a op b" for every operator but && and ||. */
  function InterpBinary(h: Host, op: Op, a: Value, b: Value): Value {
    if op == Plus && (a.Str? || b.Str?) then
      Str(ConcatText(h, a) + ConcatText(h, b))
    else if a.Int? && b.Int? then
      match op
      case Plus => Int(a.i + b.i)
      case Minus => Int(a.i - b.i)
      case Star => Int(a.i * b.i)
      case Slash => if b.i != 0 then Int(CDiv(a.i, b.i)) else Int(0)
      case Percent => if b.i != 0 then Int(CMod(a.i, b.i)) else Int(0)
      case EqualEqual => Bool(a.i == b.i)
      case BangEqual => Bool(a.i != b.i)
      case Less | LessEqual | Greater | GreaterEqual => Bool(IntCompare(op, a.i, b.i))
      case _ => Null
    else if IsNumber(a) && IsNumber(b) then
      match op
      case Plus | Minus | Star => Float(h.floatArith(op, a, b))
      case Slash => if IsZero(h, b) then Float(0) else h.floatDiv(a, b)
      case EqualEqual => Bool(h.floatEqual(a, b))
      case BangEqual => Bool(!h.floatEqual(a, b))
      case Less | LessEqual | Greater | GreaterEqual => Bool(h.floatLess(op, a, b))
      case _ => Null
    else if op == EqualEqual then Bool(ValuesEqual(h, a, b))
    else if op == BangEqual then Bool(!ValuesEqual(h, a, b))
    else Null
  }

  /** What the virtual machine makes of it: None is a run-time error. */
  function VmBinary(h: Host, op: Op, a: Value, b: Value): Option<Value> {
    match op
    case Plus =>
      if a.Int? && b.Int? then Some(Int(a.i + b.i))
      else if (IsNumber(a) || a.Str?) && (IsNumber(b) || b.Str?) then
        if a.Str? || b.Str? then Some(Str(PrintText(h, a) + PrintText(h, b)))
        else Some(Float(h.floatArith(op, a, b)))
      else None
    case Minus =>
      if a.Int? && b.Int? then Some(Int(a.i - b.i)) else Some(Float(h.floatArith(op, a, b)))
    case Star =>
      if a.Int? && b.Int? then Some(Int(a.i * b.i)) else Some(Float(h.floatArith(op, a, b)))
    case Slash =>
      if IsZero(h, b) then None
      else if a.Int? && b.Int? then Some(Int(h.intDiv(a.i, b.i)))
      else Some(h.floatDiv(a, b))
    case Percent =>
      if a.Int? && b.Int? && b.i != 0 then Some(Int(CMod(a.i, b.i))) else None
    case EqualEqual => Some(Bool(ValuesEqual(h, a, b)))
    case BangEqual => Some(Bool(!ValuesEqual(h, a, b)))
    case Less | LessEqual | Greater | GreaterEqual =>
      Some(Bool(if a.Int? && b.Int? then IntCompare(op, a.i, b.i) else h.floatLess(op, a, b)))
    case _ => None
  }

  /** The operand types on which the two engines compute the same result. */
  predicate EnginesAgree(h: Host, op: Op, a: Value, b: Value) {
    match op
    case Plus => (IsNumber(a) || a.Str?) && (IsNumber(b) || b.Str?)
    case Minus | Star | Less | LessEqual | Greater | GreaterEqual => IsNumber(a) && IsNumber(b)
    case Percent => a.Int? && b.Int? && b.i != 0
    case EqualEqual | BangEqual => IsNumber(a) && IsNumber(b) && a.Int? != b.Int? ==> !h.floatEqual(a, b)
    case Slash =>
      && IsNumber(a) && IsNumber(b)
      && !IsZero(h, b)
      && (a.Int? && b.Int? ==> h.intDiv(a.i, b.i) == CDiv(a.i, b.i))
    case _ => false
  }

  predicate IsBinaryOperator(op: Op) {
    !op.Bang? && !op.AndAnd? && !op.OrOr? && !op.OtherOp?
  }

  /** The host's division of doubles is a float, as its type says in the source. */
  ghost predicate FloatDivIsFloat(h: Host) {
    forall a, b :: h.floatDiv(a, b).Float?
  }

  /** The operand condition is exact: on every operator the two engines agree if and only if it holds. */
  lemma BinaryAgreement(h: Host, op: Op, a: Value, b: Value)
    requires IsBinaryOperator(op)
    requires FloatDivIsFloat(h)
    ensures VmBinary(h, op, a, b) == Some(InterpBinary(h, op, a, b)) <==> EnginesAgree(h, op, a, b)
  {
    if op.Plus? && (a.Str? || b.Str?) && EnginesAgree(h, op, a, b) {
      assert ConcatText(h, a) == PrintText(h, a) && ConcatText(h, b) == PrintText(h, b);
    }
  }
}
