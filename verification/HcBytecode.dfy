/** The bytecode file (hosc_compiler.c, write_bytecode and read_bytecode): a magic number, a count and one
    record per instruction, integers in little-endian order. */
module HcBytecode {
  type byte = n: int | 0 <= n < 256

  const INT_LIMIT: int := 0x1_0000_0000_0000_0000
  const INT_HALF: int := 0x8000_0000_0000_0000
  const WORD_LIMIT: nat := 0x1_0000_0000
  const MAX_INSTRUCTIONS: nat := 10 * 1024 * 1024
  const MAX_STRING: nat := 16 * 1024 * 1024

  /** Opcodes by what they carry (the numbering of hvm.h). */
  predicate CarriesInt(op: byte) { op == 0 || op == 3 || op == 19 || op == 20 || 23 <= op <= 26 }
  predicate CarriesFloat(op: byte) { op == 1 }
  predicate CarriesString(op: byte) { op == 2 || op == 21 || op == 22 || op == 41 }

  /** The operand is a union in the source: the opcode says which member is meant.  A float is eight raw bytes,
      a string may be a null pointer. */
  datatype Operand =
    | Int(i: int)
    | Float(bits: seq<byte>)
    | Text(s: seq<byte>)
    | NullText
    | NoOperand

  datatype Instr = Instr(op: byte, operand: Operand)

  /** The member that is set is the one the opcode carries, and it has its type's size. */
  predicate WellTyped(ins: Instr) {
    if CarriesInt(ins.op) then ins.operand.Int? && -INT_HALF <= ins.operand.i < INT_HALF
    else if CarriesFloat(ins.op) then ins.operand.Float? && |ins.operand.bits| == 8
    else if CarriesString(ins.op) then
      ins.operand.NullText? || (ins.operand.Text? && 0 !in ins.operand.s && |ins.operand.s| < WORD_LIMIT)
    else true
  }

  // ----- Integers as bytes -----

  function Power(k: nat): (r: nat)
    ensures r > 0
  {
    if k == 0 then 1 else 256 * Power(k - 1)
  }

  function Bytes(n: nat, k: nat): (r: seq<byte>)
    ensures |r| == k
  {
    if k == 0 then [] else [n % 256] + Bytes(n / 256, k - 1)
  }

  function Value(bytes: seq<byte>): nat {
    if bytes == [] then 0 else bytes[0] + 256 * Value(bytes[1..])
  }

  lemma {:induction false} ValueOfBytes(n: nat, k: nat)
    requires n < Power(k)
    ensures Value(Bytes(n, k)) == n
  {
    if k > 0 {
      assert Power(k) == 256 * Power(k - 1);
      ValueOfBytes(n / 256, k - 1);
      assert Bytes(n, k)[1..] == Bytes(n / 256, k - 1);
    }
  }

  lemma Powers()
    ensures Power(4) == WORD_LIMIT && Power(8) == INT_LIMIT
  {
    assert Power(1) == 256 && Power(2) == 0x1_0000 && Power(3) == 0x100_0000 && Power(4) == 0x1_0000_0000;
    assert Power(5) == 0x100_0000_0000 && Power(6) == 0x1_0000_0000_0000 && Power(7) == 0x100_0000_0000_0000;
  }

  /** Two's complement. */
  function Unsigned(i: int): nat
    requires -INT_HALF <= i < INT_HALF
  {
    if i >= 0 then i else i + INT_LIMIT
  }

  function Signed(n: nat): int { if n < INT_HALF then n else n - INT_LIMIT }

  // ----- Writing -----

  /** The record of one instruction. */
  function Record(ins: Instr): seq<byte>
    requires WellTyped(ins)
  {
    if CarriesInt(ins.op) then [ins.op, 1] + Bytes(Unsigned(ins.operand.i), 8)
    else if CarriesFloat(ins.op) then [ins.op, 2] + ins.operand.bits
    else if CarriesString(ins.op) then
      var s := if ins.operand.Text? then ins.operand.s else [];
      [ins.op, 3] + Bytes(|s|, 4) + s
    else [ins.op, 0]
  }

  function Records(code: seq<Instr>): seq<byte>
    requires forall i :: 0 <= i < |code| ==> WellTyped(code[i])
  {
    if code == [] then [] else Record(code[0]) + Records(code[1..])
  }

  /** "HBC1" and the count, cut to 32 bits. */
  function Header(count: nat): (r: seq<byte>)
    ensures |r| == 8
  {
    [72, 66, 67, 49] + Bytes(count % WORD_LIMIT, 4)
  }

  function File(code: seq<Instr>): seq<byte>
    requires forall i :: 0 <= i < |code| ==> WellTyped(code[i])
  {
    Header(|code|) + Records(code)
  }

  /** write_bytecode */
  method Write(code: seq<Instr>) returns (file: seq<byte>)
    requires forall i :: 0 <= i < |code| ==> WellTyped(code[i])
    ensures file == File(code)
  {
    hide Record;
    file := Header(|code|);
    var i := 0;
    assert code[0..] == code;
    while i < |code|
      invariant i <= |code|
      invariant file + Records(code[i..]) == File(code)
    {
      assert code[i..][0] == code[i] && code[i..][1..] == code[i + 1..];
      assert file + (Record(code[i]) + Records(code[i + 1..])) == (file + Record(code[i])) + Records(code[i + 1..]);
      file := file + Record(code[i]);
      i := i + 1;
    }
    assert file + Records(code[i..]) == file;
  }

  // ----- Reading -----

  datatype Parsed = Bad | Good(ins: Instr, next: nat)

  /** One record at pos: the kind byte alone decides what is read. */
  function ReadRecord(file: seq<byte>, pos: nat): (r: Parsed)
    requires pos <= |file|
    ensures r.Good? ==> pos + 2 <= r.next <= |file|
  {
    if pos + 2 > |file| then Bad
    else
      var op, kind := file[pos], file[pos + 1];
      if kind == 1 then
        if pos + 10 > |file| then Bad else Good(Instr(op, Int(Signed(Value(file[pos + 2..pos + 10])))), pos + 10)
      else if kind == 2 then
        if pos + 10 > |file| then Bad else Good(Instr(op, Float(file[pos + 2..pos + 10])), pos + 10)
      else if kind == 3 then
        if pos + 6 > |file| then Bad
        else
          var len := Value(file[pos + 2..pos + 6]);
          if len > MAX_STRING || |file| - (pos + 6) < len then Bad
          else Good(Instr(op, Text(file[pos + 6..pos + 6 + len])), pos + 6 + len)
      else Good(Instr(op, NoOperand), pos + 2)
  }

  datatype Result = Rejected | Code(code: seq<Instr>)

  function ReadRecords(file: seq<byte>, pos: nat, count: nat): Result
    requires pos <= |file|
    decreases count
  {
    if count == 0 then Code([])
    else
      match ReadRecord(file, pos)
      case Bad => Rejected
      case Good(ins, next) =>
        match ReadRecords(file, next, count - 1)
        case Rejected => Rejected
        case Code(rest) => Code([ins] + rest)
  }

  function Parse(file: seq<byte>): Result {
    if |file| < 8 || file[..4] != [72, 66, 67, 49] || Value(file[4..8]) > MAX_INSTRUCTIONS then Rejected
    else ReadRecords(file, 8, Value(file[4..8]))
  }

  /** read_bytecode */
  method Read(file: seq<byte>) returns (r: Result)
    ensures r == Parse(file)
  {
    hide ReadRecord;
    if |file| < 4 || file[..4] != [72, 66, 67, 49] { return Rejected; }
    if |file| < 8 { return Rejected; }
    var count := Value(file[4..8]);
    if count > MAX_INSTRUCTIONS { return Rejected; }
    var code := [];
    var pos := 8;
    var i := 0;
    while i < count
      invariant i <= count && 8 <= pos <= |file|
      invariant Parse(file) == Prefixed(code, ReadRecords(file, pos, count - i))
    {
      var p := ReadRecord(file, pos);
      if p.Bad? { return Rejected; }
      ghost var rest := ReadRecords(file, p.next, count - i - 1);
      if rest.Code? { assert code + ([p.ins] + rest.code) == (code + [p.ins]) + rest.code; }
      code := code + [p.ins];
      pos := p.next;
      i := i + 1;
    }
    assert code + [] == code;
    r := Code(code);
  }

  /** The rest of the file behind instructions already read. */
  function Prefixed(code: seq<Instr>, r: Result): Result {
    if r.Code? then Code(code + r.code) else r
  }

  // ----- Round trip -----

  /** What a file keeps of an instruction: a null string comes back empty, and an opcode that carries nothing
      loses whatever its operand held. */
  function Kept(ins: Instr): Instr
    requires WellTyped(ins)
  {
    if CarriesInt(ins.op) || CarriesFloat(ins.op) then ins
    else if CarriesString(ins.op) then Instr(ins.op, if ins.operand.Text? then ins.operand else Text([]))
    else Instr(ins.op, NoOperand)
  }

  function AllKept(code: seq<Instr>): seq<Instr>
    requires forall i :: 0 <= i < |code| ==> WellTyped(code[i])
  {
    if code == [] then [] else [Kept(code[0])] + AllKept(code[1..])
  }

  /** Strings the reader accepts. */
  predicate Storable(ins: Instr) {
    WellTyped(ins) && (CarriesString(ins.op) && ins.operand.Text? ==> |ins.operand.s| <= MAX_STRING)
  }

  predicate AllStorable(code: seq<Instr>) {
    code == [] || (Storable(code[0]) && AllStorable(code[1..]))
  }

  /** part stands in file at pos. */
  predicate At(file: seq<byte>, pos: nat, part: seq<byte>) {
    pos + |part| <= |file| && file[pos..pos + |part|] == part
  }

  lemma AtSplit(file: seq<byte>, pos: nat, a: seq<byte>, b: seq<byte>)
    requires At(file, pos, a + b)
    ensures At(file, pos, a) && At(file, pos + |a|, b)
  {
    assert file[pos..pos + |a|] == (a + b)[..|a|];
    assert file[pos + |a|..pos + |a| + |b|] == (a + b)[|a|..];
  }

  lemma AtHead(file: seq<byte>, pos: nat, x: byte, y: byte, rest: seq<byte>)
    requires At(file, pos, [x, y] + rest)
    ensures pos + 2 + |rest| <= |file| && file[pos] == x && file[pos + 1] == y && At(file, pos + 2, rest)
  {
    AtSplit(file, pos, [x, y], rest);
    assert file[pos..pos + 2] == [x, y];
    assert file[pos] == file[pos..pos + 2][0] && file[pos + 1] == file[pos..pos + 2][1];
  }

  /** Reading a record gives what was kept of the instruction, wherever it stands. */
  lemma ReadBack(file: seq<byte>, pos: nat, ins: Instr)
    requires WellTyped(ins) && At(file, pos, Record(ins))
    ensures Storable(ins) ==> ReadRecord(file, pos) == Good(Kept(ins), pos + |Record(ins)|)
    ensures !Storable(ins) ==> ReadRecord(file, pos) == Bad
  {
    Powers();
    if CarriesInt(ins.op) {
      AtHead(file, pos, ins.op, 1, Bytes(Unsigned(ins.operand.i), 8));
      ValueOfBytes(Unsigned(ins.operand.i), 8);
    } else if CarriesFloat(ins.op) {
      AtHead(file, pos, ins.op, 2, ins.operand.bits);
    } else if CarriesString(ins.op) {
      ReadBackText(file, pos, ins);
    } else {
      assert [ins.op, 0] + [] == [ins.op, 0];
      AtHead(file, pos, ins.op, 0, []);
    }
  }

  lemma ReadBackText(file: seq<byte>, pos: nat, ins: Instr)
    requires WellTyped(ins) && CarriesString(ins.op) && At(file, pos, Record(ins))
    ensures Storable(ins) ==> ReadRecord(file, pos) == Good(Kept(ins), pos + |Record(ins)|)
    ensures !Storable(ins) ==> ReadRecord(file, pos) == Bad
  {
    hide Value, Bytes, At;
    var s := if ins.operand.Text? then ins.operand.s else [];
    assert Record(ins) == [ins.op, 3] + (Bytes(|s|, 4) + s);
    TextParts(file, pos, ins.op, s);
  }

  /** The length of a string and the string, behind the opcode and the kind. */
  lemma TextParts(file: seq<byte>, pos: nat, op: byte, s: seq<byte>)
    requires |s| < WORD_LIMIT && At(file, pos, [op, 3] + (Bytes(|s|, 4) + s))
    ensures pos + 6 + |s| <= |file| && file[pos] == op && file[pos + 1] == 3
    ensures Value(file[pos + 2..pos + 6]) == |s| && file[pos + 6..pos + 6 + |s|] == s
  {
    hide Value, Bytes;
    AtHead(file, pos, op, 3, Bytes(|s|, 4) + s);
    AtSplit(file, pos + 2, Bytes(|s|, 4), s);
    Powers();
    ValueOfBytes(|s|, 4);
  }

  lemma {:induction false} ReadBackAll(file: seq<byte>, pos: nat, code: seq<Instr>)
    requires forall i :: 0 <= i < |code| ==> WellTyped(code[i])
    requires At(file, pos, Records(code))
    ensures AllStorable(code) ==> ReadRecords(file, pos, |code|) == Code(AllKept(code))
    ensures !AllStorable(code) ==> ReadRecords(file, pos, |code|) == Rejected
    decreases |code|
  {
    hide Record, ReadRecord, Kept, WellTyped, Storable;
    if code != [] {
      AtSplit(file, pos, Record(code[0]), Records(code[1..]));
      ReadBack(file, pos, code[0]);
      if Storable(code[0]) { ReadBackAll(file, pos + |Record(code[0])|, code[1..]); }
    }
  }

  /** Reading a written file gives the instructions back, exactly when there are not too many of them and no
      string is too long; anything may follow the file. */
  lemma RoundTrip(code: seq<Instr>, extra: seq<byte>)
    requires forall i :: 0 <= i < |code| ==> WellTyped(code[i])
    requires |code| < WORD_LIMIT
    ensures |code| <= MAX_INSTRUCTIONS && AllStorable(code) ==> Parse(File(code) + extra) == Code(AllKept(code))
    ensures !(|code| <= MAX_INSTRUCTIONS && AllStorable(code)) ==> Parse(File(code) + extra) == Rejected
  {
    hide ReadRecords, Records, AllStorable, WellTyped, Bytes, Value, AllKept;
    var file := File(code) + extra;
    HeaderOf(code, extra);
    hide File;
    ReadBackAll(file, 8, code);
  }

  /** The first eight bytes, and what stands behind them. */
  lemma HeaderOf(code: seq<Instr>, extra: seq<byte>)
    requires forall i :: 0 <= i < |code| ==> WellTyped(code[i])
    requires |code| < WORD_LIMIT
    ensures var file := File(code) + extra;
      |file| >= 8 && file[..4] == [72, 66, 67, 49] && Value(file[4..8]) == |code| && At(file, 8, Records(code))
  {
    hide Records, WellTyped, Bytes, Value;
    var file := File(code) + extra;
    Powers();
    ValueOfBytes(|code|, 4);
    assert file[..8] == Header(|code|);
    assert file[..4] == file[..8][..4] && file[4..8] == file[..8][4..];
  }

  // ----- The bytes one by one -----

  /** The least significant byte comes first. */
  lemma FourBytes(n: nat)
    requires n < WORD_LIMIT
    ensures Bytes(n, 4) == [n % 256, n / 0x100 % 256, n / 0x1_0000 % 256, n / 0x100_0000]
  {
    assert Bytes(n / 0x100_0000, 1) == [n / 0x100_0000 % 256] + Bytes(n / 0x100_0000 / 256, 0);
    assert Bytes(n / 0x1_0000, 2) == [n / 0x1_0000 % 256] + Bytes(n / 0x1_0000 / 256, 1);
    assert Bytes(n / 0x100, 3) == [n / 0x100 % 256] + Bytes(n / 0x100 / 256, 2);
    assert n / 0x100 / 256 == n / 0x1_0000 && n / 0x1_0000 / 256 == n / 0x100_0000;
  }

  /** A file starts with "HBC1" and the number of its instructions. */
  lemma FileStart(code: seq<Instr>)
    requires (forall i :: 0 <= i < |code| ==> WellTyped(code[i])) && |code| < WORD_LIMIT
    ensures var file, n := File(code), |code|;
      file[..8] == ['H' as int, 'B' as int, 'C' as int, '1' as int,
                    n % 256, n / 0x100 % 256, n / 0x1_0000 % 256, n / 0x100_0000]
  {
    hide Records, WellTyped;
    FourBytes(|code|);
    hide Bytes;
    assert File(code)[..8] == Header(|code|);
  }

  /** Eight bytes hold an integer: 255 in all of them is minus one, and a small number stands in the first. */
  lemma IntegerBytes(i: int)
    requires 0 <= i < 256
    ensures Bytes(Unsigned(i), 8) == [i, 0, 0, 0, 0, 0, 0, 0]
    ensures Bytes(Unsigned(-1 - i), 8) == [255 - i, 255, 255, 255, 255, 255, 255, 255]
  {
    ZeroBytes(7);
    assert Bytes(i, 8) == [i] + Bytes(0, 7);
    var n := Unsigned(-1 - i);
    assert n == INT_LIMIT - 1 - i && n % 256 == 255 - i && n / 256 == 0x100_0000_0000_0000 - 1;
    FullBytes(7);
    assert Bytes(n, 8) == [255 - i] + Bytes(0x100_0000_0000_0000 - 1, 7);
  }

  lemma {:induction false} ZeroBytes(k: nat)
    ensures Bytes(0, k) == seq(k, _ => 0)
  {
    if k > 0 { ZeroBytes(k - 1); }
  }

  lemma {:induction false} FullBytes(k: nat)
    ensures Bytes(Power(k) - 1, k) == seq(k, _ => 255)
    ensures k == 7 ==> Power(k) == 0x100_0000_0000_0000
  {
    if k > 0 {
      FullBytes(k - 1);
      assert (Power(k) - 1) % 256 == 255 && (Power(k) - 1) / 256 == Power(k - 1) - 1;
    }
    Powers();
    assert Power(8) == 256 * Power(7);
  }

  /** The kind behind the opcode: 1 for an integer, 2 for a float, 3 for a string, 0 for nothing. */
  lemma RecordStart(ins: Instr)
    requires WellTyped(ins)
    ensures Record(ins)[0] == ins.op
    ensures Record(ins)[1] ==
      if ins.op in {0, 3, 19, 20, 23, 24, 25, 26} then 1 else if ins.op == 1 then 2
      else if ins.op in {2, 21, 22, 41} then 3 else 0
  {
  }

  /** An instruction comes back as it was, unless it holds a null string or an operand its opcode does not carry. */
  lemma KeptExactly(ins: Instr)
    requires WellTyped(ins)
    ensures Kept(ins) == ins <==>
      ins.operand != NullText
      && (!CarriesInt(ins.op) && !CarriesFloat(ins.op) && !CarriesString(ins.op) ==> ins.operand == NoOperand)
    ensures Kept(ins).op == ins.op
  {
  }

  lemma {:induction false} AllKeptInOrder(code: seq<Instr>, i: nat)
    requires (forall k :: 0 <= k < |code| ==> WellTyped(code[k])) && i < |code|
    ensures |AllKept(code)| == |code| && AllKept(code)[i] == Kept(code[i])
  {
    hide Kept, WellTyped;
    if i > 0 { AllKeptInOrder(code[1..], i - 1); } else if |code| > 1 { AllKeptInOrder(code[1..], 0); }
  }

  // ----- Truncated files -----

  /** A record cut short is bad. */
  lemma CutRecord(file: seq<byte>, pos: nat, n: nat)
    requires pos <= n < |file|
    requires ReadRecord(file, pos).Good? && n < ReadRecord(file, pos).next
    ensures ReadRecord(file[..n], pos) == Bad
  {
    var cut := file[..n];
    if pos + 6 <= n {
      assert cut[pos + 2..pos + 6] == file[pos + 2..pos + 6];
      assert cut[pos] == file[pos] && cut[pos + 1] == file[pos + 1];
    } else if pos + 2 <= n {
      assert cut[pos] == file[pos] && cut[pos + 1] == file[pos + 1];
    }
  }

  /** Behind a whole record the cut makes no difference to it. */
  lemma WholeRecord(file: seq<byte>, pos: nat, n: nat)
    requires pos <= n < |file|
    requires ReadRecord(file, pos).Good? && ReadRecord(file, pos).next <= n
    ensures ReadRecord(file[..n], pos) == ReadRecord(file, pos)
  {
    var cut := file[..n];
    var p := ReadRecord(file, pos);
    assert cut[pos] == file[pos] && cut[pos + 1] == file[pos + 1];
    if p.next >= pos + 6 { assert cut[pos + 2..pos + 6] == file[pos + 2..pos + 6]; }
    if p.next == pos + 10 { assert cut[pos + 2..pos + 10] == file[pos + 2..pos + 10]; }
    if p.next >= pos + 6 { assert cut[pos + 6..p.next] == file[pos + 6..p.next]; }
  }

  /** Where reading ends. */
  function EndOf(file: seq<byte>, pos: nat, count: nat): nat
    requires pos <= |file| && ReadRecords(file, pos, count).Code?
    decreases count
  {
    if count == 0 then pos else EndOf(file, ReadRecord(file, pos).next, count - 1)
  }

  lemma {:induction false} CutRecords(file: seq<byte>, pos: nat, count: nat, n: nat)
    requires pos <= n < |file| && ReadRecords(file, pos, count).Code? && n < EndOf(file, pos, count)
    ensures ReadRecords(file[..n], pos, count) == Rejected
    decreases count
  {
    hide ReadRecord;
    if count > 0 {
      var p := ReadRecord(file, pos);
      if n < p.next {
        CutRecord(file, pos, n);
      } else {
        WholeRecord(file, pos, n);
        CutRecords(file, p.next, count - 1, n);
      }
    }
  }

  lemma {:induction false} EndOfRecords(file: seq<byte>, pos: nat, code: seq<Instr>)
    requires (forall i :: 0 <= i < |code| ==> WellTyped(code[i])) && AllStorable(code)
    requires At(file, pos, Records(code)) && ReadRecords(file, pos, |code|).Code?
    ensures EndOf(file, pos, |code|) == pos + |Records(code)|
    decreases |code|
  {
    hide Record, ReadRecord, Kept;
    if code != [] {
      AtSplit(file, pos, Record(code[0]), Records(code[1..]));
      ReadBack(file, pos, code[0]);
      EndOfRecords(file, pos + |Record(code[0])|, code[1..]);
    }
  }

  /** No proper beginning of a written file is accepted. */
  lemma TruncatedIsRejected(code: seq<Instr>, n: nat)
    requires forall i :: 0 <= i < |code| ==> WellTyped(code[i])
    requires |code| < WORD_LIMIT && n < |File(code)|
    ensures Parse(File(code)[..n]) == Rejected
  {
    hide ReadRecords, Records, EndOf, Storable, WellTyped, Bytes, Value;
    var file := File(code);
    var cut := file[..n];
    if n >= 8 {
      assert file + [] == file;
      HeaderOf(code, []);
      assert cut[4..8] == file[4..8];
      if |code| <= MAX_INSTRUCTIONS { CutBody(code, n); }
    }
  }

  lemma CutBody(code: seq<Instr>, n: nat)
    requires forall i :: 0 <= i < |code| ==> WellTyped(code[i])
    requires 8 <= n < |File(code)|
    ensures ReadRecords(File(code)[..n], 8, |code|) == Rejected
  {
    var file := File(code);
    assert At(file, 8, Records(code));
    ReadBackAll(file, 8, code);
    if AllStorable(code) {
      EndOfRecords(file, 8, code);
      CutRecords(file, 8, |code|, n);
    } else {
      CutBad(file, 8, |code|, n);
    }
  }

  /** A file that is rejected whole is rejected cut. */
  lemma {:induction false} CutBad(file: seq<byte>, pos: nat, count: nat, n: nat)
    requires pos <= n < |file| && ReadRecords(file, pos, count) == Rejected
    ensures ReadRecords(file[..n], pos, count) == Rejected
    decreases count
  {
    hide ReadRecord;
    var p := ReadRecord(file, pos);
    if p.Bad? {
      BadStaysBad(file, pos, n);
    } else if n < p.next {
      CutRecord(file, pos, n);
    } else {
      WholeRecord(file, pos, n);
      CutBad(file, p.next, count - 1, n);
    }
  }

  lemma BadStaysBad(file: seq<byte>, pos: nat, n: nat)
    requires pos <= n < |file| && ReadRecord(file, pos) == Bad
    ensures ReadRecord(file[..n], pos) == Bad
  {
    var cut := file[..n];
    if pos + 2 <= n {
      assert cut[pos] == file[pos] && cut[pos + 1] == file[pos + 1];
      if pos + 6 <= n { assert cut[pos + 2..pos + 6] == file[pos + 2..pos + 6]; }
    }
  }
}
