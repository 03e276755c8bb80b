/** Source texts in parts: where a text can be cut so that its tokens are those of the parts. */
module CpTexts {
  import opened CpLexer

  /** A character that ends whatever stands before it and that nothing behind it is joined to. */
  predicate IsCut(c: char) {
    IsSpace(c) || c == '(' || c == ')' || c == '[' || c == ']' || c == '{' || c == '}' || c == ',' || c == ';' || c == ':'
  }

  /** The text is read up to its end, and its last lexeme is one such character: no comment and no literal reaches
      the end. */
  predicate Settled(a: string)
    decreases |a|
  {
    a == "" ||
    match LexOne(a)
    case Bad => false
    case Blank(n) => if n == |a| then |a| == 1 && IsCut(a[0]) else Settled(a[n..])
    case Lexed(_, n) => if n == |a| then |a| == 1 && IsCut(a[0]) else Settled(a[n..])
  }

  lemma {:induction false} SettledEnd(a: string)
    requires Settled(a) && a != ""
    ensures IsCut(a[|a| - 1])
    decreases |a|
  {
    hide LexOne, IsCut;
    var n := LexOne(a).length;
    if n < |a| { SettledEnd(a[n..]); }
  }

  // ----- What reads ahead sees nothing of what is appended behind a cut -----

  lemma {:induction false} IdentMore(a: string, b: string)
    requires IdentLength(a) < |a|
    ensures IdentLength(a + b) == IdentLength(a)
  {
    if IsIdentPart(a[0]) {
      assert (a + b)[1..] == a[1..] + b;
      IdentMore(a[1..], b);
    }
  }

  lemma {:induction false} DigitsMore(a: string, b: string)
    requires DigitLength(a) < |a|
    ensures DigitLength(a + b) == DigitLength(a)
  {
    if IsDigit(a[0]) {
      assert (a + b)[1..] == a[1..] + b;
      DigitsMore(a[1..], b);
    }
  }

  lemma {:induction false} LineMore(a: string, b: string)
    requires LineLength(a) < |a|
    ensures LineLength(a + b) == LineLength(a)
  {
    if a[0] != '\n' && a[0] != '\r' {
      assert (a + b)[1..] == a[1..] + b;
      LineMore(a[1..], b);
    }
  }

  lemma {:induction false} CommentMore(a: string, b: string)
    requires CommentLength(a) < |a|
    ensures CommentLength(a + b) == CommentLength(a)
  {
    if !(a[0] == '*' && Has(a, 1, '/')) {
      assert (a + b)[1..] == a[1..] + b;
      CommentMore(a[1..], b);
    }
  }

  lemma {:induction false} StringMore(a: string, b: string)
    requires StringBody(a).Closed?
    ensures StringBody(a + b) == StringBody(a)
    decreases |a|
  {
    if a[0] == '\\' {
      assert (a + b)[2..] == a[2..] + b;
      StringMore(a[2..], b);
    } else if a[0] != '"' {
      assert (a + b)[1..] == a[1..] + b;
      StringMore(a[1..], b);
    }
  }

  lemma {:induction false} RawMore(a: string, b: string)
    requires RawBody(a).Closed?
    ensures RawBody(a + b) == RawBody(a)
    decreases |a|
  {
    if a[0] != '`' {
      var n := RawUnit(a).1;
      RawMore(a[n..], b);
      assert |a| > 1;
      assert (a + b)[n..] == a[n..] + b;
    }
  }

  lemma NumberMore(a: string, b: string)
    requires a != "" && IsDigit(a[0]) && IsCut(a[|a| - 1])
    ensures NumberAt(a + b) == NumberAt(a)
  {
    hide Decimal;
    var whole := DigitLength(a);
    assert whole < |a|;
    DigitsMore(a, b);
    FractionMore(a, b, whole);
    ExponentMore(a, b, FractionEnd(a, whole));
    hide DigitLength, FractionEnd, ExponentEnd;
    assert NumberShape(a + b) == NumberShape(a);
    var n := NumberShape(a).0;
    assert (a + b)[..n] == a[..n];
  }

  lemma FractionMore(a: string, b: string, n: nat)
    requires n < |a| && IsCut(a[|a| - 1])
    ensures FractionEnd(a + b, n) == FractionEnd(a, n) < |a|
  {
    if a[n] == '.' {
      var tail := a[n + 1..];
      assert tail[|tail| - 1] == a[|a| - 1];
      assert (a + b)[n + 1..] == tail + b;
      DigitsMore(tail, b);
    }
  }

  lemma ExponentMore(a: string, b: string, n: nat)
    requires n < |a| && IsCut(a[|a| - 1])
    ensures ExponentEnd(a + b, n) == ExponentEnd(a, n)
  {
    if a[n] == 'e' || a[n] == 'E' {
      assert n + 1 < |a|;
      var d := n + 1 + if Has(a, n + 1, '+') || Has(a, n + 1, '-') then 1 else 0;
      assert d < |a|;
      if IsDigit(a[d]) {
        var tail := a[d..];
        assert tail[|tail| - 1] == a[|a| - 1];
        assert (a + b)[d..] == tail + b;
        DigitsMore(tail, b);
      }
    }
  }

  lemma SymbolMore(a: string, b: string)
    requires a != "" && IsCut(a[|a| - 1])
    ensures SymbolAt(a + b) == SymbolAt(a)
  {
    if |a| == 1 {
      assert a[0] != '=' && a[0] != '!' && a[0] != '<' && a[0] != '>' && a[0] != '&' && a[0] != '|';
    }
  }

  /** One lexeme in front of a cut. */
  lemma LexOneMore(a: string, b: string)
    requires a != "" && IsCut(a[|a| - 1]) && !LexOne(a).Bad? && (LexOne(a).length < |a| || |a| == 1)
    ensures LexOne(a + b) == LexOne(a)
  {
    hide IdentLength, StringBody, RawBody, NumberAt, LineLength, CommentLength, SymbolAt, WordToken, IsCut;
    var c := a[0];
    assert (a + b)[0] == c;
    assert (a + b)[1..] == a[1..] + b;
    if IsSpace(c) {
    } else if IsIdentStart(c) {
      NameMore(a, b);
    } else if c == '`' {
      RawMore(a[1..], b);
    } else if c == '"' {
      StringMore(a[1..], b);
    } else if IsDigit(c) {
      NumberMore(a, b);
    } else if c == '/' {
      CutIsNoSlash(a[|a| - 1]);
      SlashMore(a, b);
    } else {
      SymbolMore(a, b);
    }
  }

  lemma CutIsNoSlash(c: char)
    requires IsCut(c)
    ensures c != '/'
  {
  }

  lemma NameMore(a: string, b: string)
    requires a != "" && IsIdentStart(a[0]) && IsCut(a[|a| - 1])
    ensures IdentLength(a + b) == IdentLength(a) && (a + b)[..IdentLength(a)] == a[..IdentLength(a)]
  {
    assert !IsIdentPart(a[|a| - 1]);
    IdentMore(a, b);
  }

  lemma SlashMore(a: string, b: string)
    requires a != "" && a[0] == '/' && IsCut(a[|a| - 1]) && !LexOne(a).Bad? && LexOne(a).length < |a|
    ensures LexOne(a + b) == LexOne(a)
  {
    hide LineLength, CommentLength;
    assert |a| > 1 && (a + b)[1] == a[1] && (a + b)[2..] == a[2..] + b;
    if a[1] == '/' {
      LineMore(a[2..], b);
    } else if a[1] == '*' {
      CommentMore(a[2..], b);
    } else {
      SymbolMore(a, b);
    }
  }

  /** The tokens of a settled text and of what follows it are those of the whole. */
  lemma {:induction false} LexAppended(a: string, b: string)
    requires Settled(a)
    ensures Lex(a).Some? && Lex(a + b) == InFront(Lex(a).value, Lex(b))
    decreases |a|
  {
    hide LexOne, IsCut;
    if a == "" {
      NothingInFront(Lex(b));
      assert "" + b == b;
    } else {
      SettledEnd(a);
      LexOneMore(a, b);
      var n := LexOne(a).length;
      LexAppended(a[n..], b);
      assert (a + b)[n..] == a[n..] + b;
      if Lex(b).Some? && LexOne(a).Lexed? {
        var t, more := LexOne(a).token, Lex(a[n..]).value;
        assert [t] + (more + Lex(b).value) == ([t] + more) + Lex(b).value;
      }
    }
  }

  // ----- No text contains the token that marks its end -----

  lemma {:induction false} NoEndInside(s: string)
    ensures Lex(s).Some? ==> forall i :: 0 <= i < |Lex(s).value| ==> Lex(s).value[i] != EndOfFile
    decreases |s|
  {
    hide NumberAt, StringBody, RawBody, IdentLength, LineLength, CommentLength, SymbolAt;
    if s != "" {
      var l := LexOne(s);
      if l.Lexed? {
        OneIsNotEnd(s);
        NoEndInside(s[l.length..]);
      } else if l.Blank? {
        NoEndInside(s[l.length..]);
      }
    }
  }

  lemma OneIsNotEnd(s: string)
    requires s != ""
    ensures var l := LexOne(s); l.Lexed? ==> l.token != EndOfFile
  {
    hide StringBody, RawBody, IdentLength, LineLength, CommentLength, Decimal, NumberShape;
  }
}
