/** Where the parts of compiled code stand, with every jump distance that fits 16 bits. */
module BsLayout {
  import opened BsAst
  import opened BsBytecode
  import opened BsCodegen

  lemma Sizes(d: short, op: Op)
    ensures |Encode(Pop)| == 1 && |Encode(BinaryOp(op))| == 1
    ensures |Encode(Jump(d))| == 3 && |Encode(JumpIfFalse(d))| == 3 && |Encode(Loop(d))| == 3
  {
  }

  lemma AndLayout(code: seq<byte>, ip: nat, lcode: seq<byte>, rcode: seq<byte>)
    requires CodeAt(code, ip, BinaryCode(AndAnd, lcode, rcode)) && 1 + |rcode| <= MAX_JUMP
    ensures |BinaryCode(AndAnd, lcode, rcode)| == |lcode| + 4 + |rcode|
    ensures CodeAt(code, ip, lcode)
    ensures CodeAt(code, ip + |lcode|, Encode(JumpIfFalse(1 + |rcode|)))
    ensures CodeAt(code, ip + |lcode| + 3, Encode(Pop))
    ensures CodeAt(code, ip + |lcode| + 4, rcode)
  {
    hide CodeAt, Encode;
    var d := 1 + |rcode|;
    Sizes(d, Plus);
    CodeAtSplit(code, ip, lcode, Encode(JumpIfFalse(d)) + (Encode(Pop) + rcode));
    CodeAtSplit(code, ip + |lcode|, Encode(JumpIfFalse(d)), Encode(Pop) + rcode);
    CodeAtSplit(code, ip + |lcode| + 3, Encode(Pop), rcode);
  }

  lemma OrLayout(code: seq<byte>, ip: nat, lcode: seq<byte>, rcode: seq<byte>)
    requires CodeAt(code, ip, BinaryCode(OrOr, lcode, rcode)) && 1 + |rcode| <= MAX_JUMP
    ensures |BinaryCode(OrOr, lcode, rcode)| == |lcode| + 7 + |rcode|
    ensures CodeAt(code, ip, lcode)
    ensures CodeAt(code, ip + |lcode|, Encode(JumpIfFalse(3)))
    ensures CodeAt(code, ip + |lcode| + 3, Encode(Jump(1 + |rcode|)))
    ensures CodeAt(code, ip + |lcode| + 6, Encode(Pop))
    ensures CodeAt(code, ip + |lcode| + 7, rcode)
  {
    hide CodeAt, Encode;
    var d := 1 + |rcode|;
    Sizes(d, Plus);
    Sizes(3, Plus);
    CodeAtSplit(code, ip, lcode, Encode(JumpIfFalse(3)) + (Encode(Jump(d)) + (Encode(Pop) + rcode)));
    CodeAtSplit(code, ip + |lcode|, Encode(JumpIfFalse(3)), Encode(Jump(d)) + (Encode(Pop) + rcode));
    CodeAtSplit(code, ip + |lcode| + 3, Encode(Jump(d)), Encode(Pop) + rcode);
    CodeAtSplit(code, ip + |lcode| + 6, Encode(Pop), rcode);
  }

  lemma OperatorLayout(code: seq<byte>, ip: nat, op: Op, lcode: seq<byte>, rcode: seq<byte>)
    requires HasOpCode(op) && CodeAt(code, ip, BinaryCode(op, lcode, rcode))
    ensures |BinaryCode(op, lcode, rcode)| == |lcode| + |rcode| + 1
    ensures CodeAt(code, ip, lcode)
    ensures CodeAt(code, ip + |lcode|, rcode)
    ensures CodeAt(code, ip + |lcode| + |rcode|, Encode(BinaryOp(op)))
  {
    hide CodeAt, Encode;
    Sizes(0, op);
    CodeAtSplit(code, ip, lcode, rcode + Encode(BinaryOp(op)));
    CodeAtSplit(code, ip + |lcode|, rcode, Encode(BinaryOp(op)));
  }

  lemma IfLayout(code: seq<byte>, ip: nat, tcode: seq<byte>)
    requires CodeAt(code, ip, IfCode(tcode)) && 1 + |tcode| <= MAX_JUMP
    ensures |IfCode(tcode)| == |tcode| + 5
    ensures CodeAt(code, ip, Encode(JumpIfFalse(1 + |tcode|)))
    ensures CodeAt(code, ip + 3, Encode(Pop))
    ensures CodeAt(code, ip + 4, tcode)
    ensures CodeAt(code, ip + 4 + |tcode|, Encode(Pop))
  {
    hide CodeAt, Encode;
    var d := 1 + |tcode|;
    Sizes(d, Plus);
    CodeAtSplit(code, ip, Encode(JumpIfFalse(d)), Encode(Pop) + (tcode + Encode(Pop)));
    CodeAtSplit(code, ip + 3, Encode(Pop), tcode + Encode(Pop));
    CodeAtSplit(code, ip + 4, tcode, Encode(Pop));
  }

  lemma IfElseLayout(code: seq<byte>, ip: nat, tcode: seq<byte>, ecode: seq<byte>)
    requires CodeAt(code, ip, IfElseCode(tcode, ecode)) && |tcode| + 4 <= MAX_JUMP && 1 + |ecode| <= MAX_JUMP
    ensures |IfElseCode(tcode, ecode)| == |tcode| + |ecode| + 8
    ensures CodeAt(code, ip, Encode(JumpIfFalse(|tcode| + 4)))
    ensures CodeAt(code, ip + 3, Encode(Pop))
    ensures CodeAt(code, ip + 4, tcode)
    ensures CodeAt(code, ip + 4 + |tcode|, Encode(Jump(1 + |ecode|)))
    ensures CodeAt(code, ip + 7 + |tcode|, Encode(Pop))
    ensures CodeAt(code, ip + 8 + |tcode|, ecode)
  {
    hide CodeAt, Encode;
    var d, f := |tcode| + 4, 1 + |ecode|;
    Sizes(d, Plus);
    Sizes(f, Plus);
    var rest := Encode(Jump(f)) + (Encode(Pop) + ecode);
    CodeAtSplit(code, ip, Encode(JumpIfFalse(d)), Encode(Pop) + (tcode + rest));
    CodeAtSplit(code, ip + 3, Encode(Pop), tcode + rest);
    CodeAtSplit(code, ip + 4, tcode, rest);
    CodeAtSplit(code, ip + 4 + |tcode|, Encode(Jump(f)), Encode(Pop) + ecode);
    CodeAtSplit(code, ip + 7 + |tcode|, Encode(Pop), ecode);
  }

  lemma WhileLayout(code: seq<byte>, ip: nat, ccode: seq<byte>, bcode: seq<byte>)
    requires CodeAt(code, ip, WhileCode(ccode, bcode)) && |ccode| + |bcode| + 7 <= MAX_JUMP
    ensures |WhileCode(ccode, bcode)| == |ccode| + |bcode| + 8
    ensures CodeAt(code, ip, ccode)
    ensures CodeAt(code, ip + |ccode|, Encode(JumpIfFalse(|bcode| + 4)))
    ensures CodeAt(code, ip + |ccode| + 3, Encode(Pop))
    ensures CodeAt(code, ip + |ccode| + 4, bcode)
    ensures CodeAt(code, ip + |ccode| + 4 + |bcode|, Encode(Loop(|ccode| + |bcode| + 7)))
    ensures CodeAt(code, ip + |ccode| + 7 + |bcode|, Encode(Pop))
  {
    hide CodeAt, Encode;
    var d, back := |bcode| + 4, |ccode| + |bcode| + 7;
    Sizes(d, Plus);
    Sizes(back, Plus);
    var rest := Encode(Loop(back)) + Encode(Pop);
    CodeAtSplit(code, ip, ccode, Encode(JumpIfFalse(d)) + (Encode(Pop) + (bcode + rest)));
    CodeAtSplit(code, ip + |ccode|, Encode(JumpIfFalse(d)), Encode(Pop) + (bcode + rest));
    CodeAtSplit(code, ip + |ccode| + 3, Encode(Pop), bcode + rest);
    CodeAtSplit(code, ip + |ccode| + 4, bcode, rest);
    CodeAtSplit(code, ip + |ccode| + 4 + |bcode|, Encode(Loop(back)), Encode(Pop));
  }
}
