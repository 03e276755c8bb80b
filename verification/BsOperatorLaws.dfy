/** What the operators of the two engines compute, told by laws that do not mention how: arithmetic and order on
    integers, equality, truth, and the texts of values. */
module BsOperatorLaws {
  import opened BsAst
  import opened BsValue
  import opened BsInterpreter

  /** "a op b" on integers in the interpreter. */
  function On(h: Host, op: Op, a: int, b: int): Value { InterpBinary(h, op, Int(a), Int(b)) }

  predicate Holds(h: Host, op: Op, a: int, b: int) { On(h, op, a, b) == Bool(true) }

  /** The interpreter's result as an integer. */
  function Number(v: Value): int { if v.Int? then v.i else 0 }

  /** On integers the machine gives the interpreter's result, save for what Slash and Percent make of zero and of
      doubles. */
  lemma MachineOnIntegers(h: Host, op: Op, a: int, b: int)
    requires IsBinaryOperator(op) && op != Slash && (op == Percent ==> b != 0)
    ensures VmBinary(h, op, Int(a), Int(b)) == Some(On(h, op, a, b))
  {
  }

  // ----- Arithmetic -----

  /** Zero, one, and both orders fix the sum. */
  lemma SumLaws(h: Host, a: int, b: int, c: int)
    ensures On(h, Plus, a, b).Int?
    ensures On(h, Plus, a, 0) == Int(a) && On(h, Plus, 0, 1) == Int(1)
    ensures On(h, Plus, a, b) == On(h, Plus, b, a)
    ensures On(h, Plus, Number(On(h, Plus, a, b)), c) == On(h, Plus, a, Number(On(h, Plus, b, c)))
    ensures On(h, Plus, a, b) == On(h, Plus, a, c) ==> b == c
  {
  }

  /** The difference undoes the sum. */
  lemma DifferenceLaws(h: Host, a: int, b: int)
    ensures On(h, Minus, a, b).Int?
    ensures On(h, Plus, Number(On(h, Minus, a, b)), b) == Int(a)
  {
  }

  /** The product: zero, one, and its laws with the sum. */
  lemma ProductLaws(h: Host, a: int, b: int, c: int)
    ensures On(h, Star, a, b).Int?
    ensures On(h, Star, a, 0) == Int(0) && On(h, Star, a, 1) == Int(a)
    ensures On(h, Star, a, b) == On(h, Star, b, a)
    ensures On(h, Star, a, Number(On(h, Plus, b, c)))
         == On(h, Plus, Number(On(h, Star, a, b)), Number(On(h, Star, a, c)))
  {
    assert a * (b + c) == a * b + a * c;
  }

  /** Quotient and remainder: together they give the dividend back, the remainder is smaller than the divisor and has
      the sign of the dividend, so the quotient is cut towards zero.  By zero both are zero. */
  lemma QuotientLaws(h: Host, a: int, b: int)
    ensures On(h, Slash, a, b).Int? && On(h, Percent, a, b).Int?
    ensures b != 0 ==> On(h, Plus, Number(On(h, Star, Number(On(h, Slash, a, b)), b)), Number(On(h, Percent, a, b))) == Int(a)
    ensures b > 0 ==> -b < Number(On(h, Percent, a, b)) < b
    ensures b < 0 ==> b < Number(On(h, Percent, a, b)) < -b
    ensures a >= 0 && b != 0 ==> Number(On(h, Percent, a, b)) >= 0
    ensures a <= 0 && b != 0 ==> Number(On(h, Percent, a, b)) <= 0
    ensures On(h, Slash, a, 0) == Int(0) && On(h, Percent, a, 0) == Int(0)
  {
    QuotientUnfold(h, a, b);
    hide InterpBinary, CDiv, CMod;
    if b != 0 {
      CutTowardsZero(a, b);
      ProductUnfold(h, CDiv(a, b), b);
      SumUnfold(h, CDiv(a, b) * b, CMod(a, b));
    }
  }

  lemma QuotientUnfold(h: Host, a: int, b: int)
    ensures On(h, Slash, a, b) == if b != 0 then Int(CDiv(a, b)) else Int(0)
    ensures On(h, Percent, a, b) == if b != 0 then Int(CMod(a, b)) else Int(0)
    ensures On(h, Slash, a, 0) == Int(0) && On(h, Percent, a, 0) == Int(0)
  {
  }

  lemma ProductUnfold(h: Host, a: int, b: int)
    ensures On(h, Star, a, b) == Int(a * b)
  {
  }

  lemma SumUnfold(h: Host, a: int, b: int)
    ensures On(h, Plus, a, b) == Int(a + b)
  {
  }

  lemma CutTowardsZero(a: int, b: int)
    requires b != 0
    ensures a == CDiv(a, b) * b + CMod(a, b)
    ensures if b > 0 then -b < CMod(a, b) < b else b < CMod(a, b) < -b
    ensures (a >= 0 ==> CMod(a, b) >= 0) && (a <= 0 ==> CMod(a, b) <= 0)
  {
    if a >= 0 {
      assert CMod(a, b) == a % b;
    } else {
      Opposite(b, (-a) / b);
      assert CMod(a, b) == -((-a) % b);
    }
    assert b * CDiv(a, b) == CDiv(a, b) * b;
  }

  lemma Opposite(b: int, q: int)
    ensures b * (-q) == -(b * q)
  {
  }

  /** The opposite number. */
  lemma NegationLaws(h: Host, a: int, s: State)
    ensures var r := EvalUnary(h, Minus, Result(Ok, Int(a), s));
      r.status.Ok? && r.st == s && r.value.Int? && On(h, Plus, a, Number(r.value)) == Int(0)
  {
  }

  // ----- Order -----

  /** The order goes with the sum, and of two integers exactly one is the smaller unless they are equal. */
  lemma OrderLaws(h: Host, a: int, b: int, c: int)
    ensures Holds(h, Less, a, Number(On(h, Plus, a, 1)))
    ensures Holds(h, Less, a, b) ==> !Holds(h, Less, b, Number(On(h, Plus, a, 1)))
    ensures !Holds(h, Less, a, a)
    ensures Holds(h, Less, a, b) && Holds(h, Less, b, c) ==> Holds(h, Less, a, c)
    ensures Holds(h, EqualEqual, a, b) <==> Int(a) == Int(b)
    ensures Holds(h, Less, a, b) || Holds(h, EqualEqual, a, b) || Holds(h, Less, b, a)
    ensures !(Holds(h, Less, a, b) && Holds(h, EqualEqual, a, b)) && !(Holds(h, Less, a, b) && Holds(h, Less, b, a))
  {
  }

  /** The other comparisons in terms of the first, and each is a boolean. */
  lemma ComparisonLaws(h: Host, a: int, b: int)
    ensures Holds(h, Greater, a, b) <==> Holds(h, Less, b, a)
    ensures Holds(h, LessEqual, a, b) <==> !Holds(h, Less, b, a)
    ensures Holds(h, GreaterEqual, a, b) <==> !Holds(h, Less, a, b)
    ensures Holds(h, BangEqual, a, b) <==> !Holds(h, EqualEqual, a, b)
    ensures forall op :: op in {Less, LessEqual, Greater, GreaterEqual, EqualEqual, BangEqual} ==> On(h, op, a, b).Bool?
  {
  }

  // ----- Equality, truth and texts -----

  /** Values that are neither floats nor functions are equal exactly if they are the same; a function equals no function
      with a body. */
  lemma EqualityLaws(h: Host, a: Value, b: Value)
    ensures !a.Float? && !b.Float? && !a.Function? && !b.Function? ==> (ValuesEqual(h, a, b) <==> a == b)
    ensures a.Function? && ValuesEqual(h, a, b) ==> b.Function? && a.body.Nil? && b.body.Nil?
    ensures ValuesEqual(h, a, b) ==> a.Float? == b.Float? && a.Function? == b.Function?
  {
  }

  /** False are null, false, zero and the empty string; negation turns truth around. */
  lemma TruthLaws(h: Host, v: Value, s: State)
    ensures !v.Float? ==> (Truthy(h, v) <==> v !in {Null, Bool(false), Int(0), Str("")})
    ensures v.Float? ==> (Truthy(h, v) <==> !h.floatIsZero(v))
    ensures EvalUnary(h, Bang, Result(Ok, v, s)) == Result(Ok, Bool(v == Bool(false) || !Truthy(h, v)), s)
  {
  }

  /** Strings are put together in order, and other operands enter with their texts. */
  lemma ConcatenationLaws(h: Host, s: string, t: string, i: int)
    ensures InterpBinary(h, Plus, Str(s), Str(t)) == Str(s + t) && VmBinary(h, Plus, Str(s), Str(t)) == Some(Str(s + t))
    ensures InterpBinary(h, Plus, Str(s), Int(i)) == Str(s + PrintText(h, Int(i)))
    ensures InterpBinary(h, Plus, Int(i), Str(s)) == Str(PrintText(h, Int(i)) + s)
    ensures VmBinary(h, Plus, Str(s), Int(i)) == Some(Str(s + PrintText(h, Int(i))))
    ensures VmBinary(h, Plus, Int(i), Str(s)) == Some(Str(PrintText(h, Int(i)) + s))
  {
  }

  /** The number a row of digits stands for, read from the left. */
  function Read(digits: string, before: nat): int
    decreases digits
  {
    if digits == "" then before
    else if '0' <= digits[0] <= '9' then Read(digits[1..], 10 * before + (digits[0] as int - '0' as int))
    else -1
  }

  lemma {:induction false} ReadMore(digits: string, before: nat, d: nat)
    requires Read(digits, before) >= 0 && d < 10
    ensures Read(digits + [Digit(d)], before) == 10 * Read(digits, before) + d
    decreases digits
  {
    if digits == "" {
      assert digits + [Digit(d)] == [Digit(d)] && [Digit(d)][1..] == "";
    } else {
      assert (digits + [Digit(d)])[1..] == digits[1..] + [Digit(d)];
      ReadMore(digits[1..], 10 * before + (digits[0] as int - '0' as int), d);
    }
  }

  lemma {:induction false} ReadNat(n: nat)
    ensures Read(NatText(n), 0) == n && NatText(n) != "" && (n > 0 ==> NatText(n)[0] != '0') && (n == 0 ==> NatText(n) == "0")
  {
    if n < 10 {
      assert [Digit(n)][1..] == "";
    } else {
      ReadNat(n / 10);
      ReadMore(NatText(n / 10), 0, n % 10);
    }
  }

  /** An integer is printed in decimal, without leading zeros and with a sign only if it is negative. */
  lemma IntegerTexts(h: Host, i: int)
    ensures var t := PrintText(h, Int(i));
      && t != ""
      && (i >= 0 ==> Read(t, 0) == i && (i > 0 ==> t[0] != '0') && (i == 0 ==> t == "0"))
      && (i < 0 ==> t[0] == '-' && Read(t[1..], 0) == -i && t[1..] != "" && t[1..][0] != '0')
  {
    if i < 0 {
      ReadNat(-i);
      assert IntText(i)[1..] == NatText(-i);
    } else {
      ReadNat(i);
    }
  }

  /** The other values are printed by their names, and strings by themselves. */
  lemma ValueTexts(h: Host, s: string)
    ensures PrintText(h, Null) == "null" && PrintText(h, Bool(true)) == "true" && PrintText(h, Bool(false)) == "false"
    ensures PrintText(h, Str(s)) == s
  {
  }

  // ----- Logic and failures -----

  /** && evaluates its right operand exactly if the left one is true, || exactly if it is false; without the right
      operand nothing further happens, and the result is always a boolean. */
  lemma LogicLaws(h: Host, fuel: nat, e: Node, s: State)
    requires e.Binary? && (e.op == AndAnd || e.op == OrOr) && EvalExpr(h, fuel, e.left, s).status.Ok?
    ensures var l := EvalExpr(h, fuel, e.left, s);
      var r := EvalExpr(h, fuel, e.right, l.st);
      var all := EvalExpr(h, fuel, e, s);
      if Truthy(h, l.value) == (e.op == AndAnd) then
        && all.status == r.status && all.st.scopes == r.st.scopes && all.st.out == r.st.out
        && (r.status.Ok? ==> all.value == Bool(Truthy(h, r.value)))
      else
        all.status.Ok? && all.value == Bool(e.op == OrOr) && all.st.scopes == l.st.scopes && all.st.out == l.st.out
  {
    hide Truthy;
    var all := EvalBinary(h, fuel, e, s);
  }

  /** The machine refuses sums of other values than numbers and strings, division by zero, and remainders of anything but
      integers; every other operation has a result. */
  lemma MachineRefuses(h: Host, op: Op, a: Value, b: Value)
    requires IsBinaryOperator(op)
    ensures VmBinary(h, op, a, b) == None <==>
      || (op == Plus && !((IsNumber(a) || a.Str?) && (IsNumber(b) || b.Str?)))
      || (op == Slash && IsZero(h, b))
      || (op == Percent && !(a.Int? && b.Int? && b != Int(0)))
  {
  }
}
