/** What the lexer makes of each kind of lexeme, whatever stands behind it. */
module CpLexLaws {
  import opened CpLexer
  import opened CpPrinter

  // ----- Words -----

  /** The words of the language, one by one. */
  const RESERVED: seq<string> := [
    "break", "case", "const", "continue", "default", "else", "for", "func", "if", "import", "let", "package", "print",
    "prints", "return", "switch", "text", "var", "while", "window"
  ]

  predicate IsWord(w: string) { w != "" && IsIdentStart(w[0]) && forall i :: 0 <= i < |w| ==> IsIdentPart(w[i]) }

  /** A word becomes the token of its keyword, of its boolean, or a name, and no other. */
  lemma LexWord(w: string, rest: string)
    requires IsWord(w) && (rest == "" || !IsIdentPart(rest[0]))
    ensures Lex(w + rest) == InFront([WordToken(w)], Lex(rest))
  {
    hide WordToken;
    IdentLengthOf(w, rest);
    assert (w + rest)[..|w|] == w && (w + rest)[0] == w[0];
    LexFront(w, WordToken(w), rest);
  }

  lemma WordMeans(w: string)
    ensures WordToken(w) == Word(w) <==> w in RESERVED
    ensures WordToken(w) == BoolLit(true) <==> w == "true"
    ensures WordToken(w) == BoolLit(false) <==> w == "false"
    ensures WordToken(w) == Ident(w) <==> w !in RESERVED && w != "true" && w != "false"
  {
    assert "true" !in KEYWORDS && "false" !in KEYWORDS;
    SameWords(w);
    hide KEYWORDS, RESERVED;
  }

  lemma SameWords(w: string)
    ensures w in KEYWORDS <==> w in RESERVED
    ensures "true" !in KEYWORDS && "false" !in KEYWORDS
  {
    assert "true" !in KEYWORDS && "false" !in KEYWORDS;
    assert forall k: nat :: k < |RESERVED| ==> RESERVED[k] in KEYWORDS;
    assert forall k: nat :: k < |KEYWORDS| ==> KEYWORDS[k] in RESERVED;
  }

  // ----- Blanks and comments -----

  lemma LexBlanks(c: char, rest: string)
    requires c == ' ' || 9 <= c as int <= 13
    ensures Lex([c] + rest) == Lex(rest)
  {
    var s := [c] + rest;
    assert LexOne(s) == Blank(1);
    assert s[1..] == rest;
  }

  lemma {:induction false} LineEndsAt(c: string, rest: string)
    requires '\n' !in c && '\r' !in c && (rest == "" || rest[0] == '\n' || rest[0] == '\r')
    ensures LineLength(c + rest) == |c|
  {
    if c == "" {
      assert c + rest == rest;
    } else {
      assert (c + rest)[1..] == c[1..] + rest && c[0] in c;
      LineEndsAt(c[1..], rest);
    }
  }

  /** A comment of two slashes reaches to the end of its line. */
  lemma LexLineComment(c: string, rest: string)
    requires '\n' !in c && '\r' !in c && (rest == "" || rest[0] == '\n' || rest[0] == '\r')
    ensures Lex("//" + c + rest) == Lex(rest)
  {
    hide LineLength, LexOne;
    var s := "//" + c + rest;
    assert s[2..] == c + rest && s[2 + |c|..] == rest && s[0] == '/' && Has(s, 1, '/');
    LineEndsAt(c, rest);
    LineCommentOne(s);
  }

  lemma LineCommentOne(s: string)
    requires s != "" && s[0] == '/' && Has(s, 1, '/')
    ensures LexOne(s) == Blank(2 + LineLength(s[2..]))
  {
    hide LineLength;
  }

  /** No end of a comment in c, not even across its last character. */
  predicate Inside(c: string) {
    forall i :: 0 <= i < |c| && c[i] == '*' ==> i + 1 < |c| ==> c[i + 1] != '/'
  }

  lemma {:induction false} CommentEndsAt(c: string, rest: string)
    requires Inside(c)
    ensures CommentLength(c + ("*/" + rest)) == |c|
  {
    var s := c + ("*/" + rest);
    if c == "" {
      assert s[0] == '*' && s[1] == '/';
    } else {
      assert s[1..] == c[1..] + ("*/" + rest);
      assert s[0] == c[0] && s[1] == if |c| > 1 then c[1] else '*';
      CommentEndsAt(c[1..], rest);
    }
  }

  /** The other kind of comment reaches to its first end. */
  lemma LexBlockComment(c: string, rest: string)
    requires Inside(c)
    ensures Lex("/*" + c + "*/" + rest) == Lex(rest)
  {
    var s := "/*" + c + "*/" + rest;
    assert s[2..] == c + ("*/" + rest) && s[1] == '*';
    CommentEndsAt(c, rest);
    hide CommentLength;
    assert LexOne(s) == Blank(2 + |c| + 2);
    assert s[2 + |c| + 2..] == rest;
  }

  lemma {:induction false} CommentNeverEnds(c: string)
    requires Inside(c)
    ensures CommentLength(c) == |c|
  {
    if c != "" { CommentNeverEnds(c[1..]); }
  }

  /** Without an end it is an error. */
  lemma LexOpenComment(c: string)
    requires Inside(c)
    ensures Lex("/*" + c) == None
  {
    var s := "/*" + c;
    assert s[2..] == c && s[1] == '*';
    CommentNeverEnds(c);
    hide CommentLength;
    assert LexOne(s) == Bad;
  }

  // ----- Symbols -----

  /** Symbols of one character that take no second one. */
  predicate Lone(c: char) {
    c == '(' || c == ')' || c == '[' || c == ']' || c == '{' || c == '}' || c == ',' || c == ';' || c == ':' || c == '.'
    || c == '+' || c == '-' || c == '*' || c == '%'
  }

  lemma LexLone(c: char, rest: string)
    requires Lone(c)
    ensures Lex([c] + rest) == InFront([Sym([c])], Lex(rest))
  {
    LexFront([c], Sym([c]), rest);
  }

  /** '=', '!', '<' and '>' take an equals sign behind them. */
  lemma LexComparing(c: char, rest: string)
    requires c == '=' || c == '!' || c == '<' || c == '>'
    ensures Lex([c, '='] + rest) == InFront([Sym([c, '='])], Lex(rest))
    ensures !Has(rest, 0, '=') ==> Lex([c] + rest) == InFront([Sym([c])], Lex(rest))
  {
    assert Has([c] + rest, 1, '=') == Has(rest, 0, '=');
    LexFront([c, '='], Sym([c, '=']), rest);
    if !Has(rest, 0, '=') { LexFront([c], Sym([c]), rest); }
  }

  /** '&' and '|' stand for something only in pairs. */
  lemma LexPair(c: char, rest: string)
    requires c == '&' || c == '|'
    ensures Lex([c, c] + rest) == InFront([Sym([c, c])], Lex(rest))
    ensures !Has(rest, 0, c) ==> Lex([c] + rest) == InFront([UnknownChar], Lex(rest))
  {
    assert Has([c] + rest, 1, c) == Has(rest, 0, c);
    LexFront([c, c], Sym([c, c]), rest);
    if !Has(rest, 0, c) { LexFront([c], UnknownChar, rest); }
  }

  /** A slash that starts no comment divides. */
  lemma LexSlash(rest: string)
    requires !Has(rest, 0, '/') && !Has(rest, 0, '*')
    ensures Lex("/" + rest) == InFront([Sym("/")], Lex(rest))
  {
    assert Has("/" + rest, 1, '/') == Has(rest, 0, '/') && Has("/" + rest, 1, '*') == Has(rest, 0, '*');
    LexFront("/", Sym("/"), rest);
  }

  // ----- Numbers -----

  predicate AllDigits(w: string) { forall i :: 0 <= i < |w| ==> IsDigit(w[i]) }

  /** An exponent: its letter, an optional sign and digits. */
  predicate IsExponent(w: string) {
    w != "" && (w[0] == 'e' || w[0] == 'E')
    && var k := if |w| > 1 && (w[1] == '+' || w[1] == '-') then 2 else 1;
       k < |w| && AllDigits(w[k..])
  }

  lemma ExponentOf(w: string, x: string, rest: string)
    requires x == "" || IsExponent(x)
    requires rest == "" || (!IsIdentPart(rest[0]) && rest[0] != '.')
    ensures ExponentEnd(w + (x + rest), |w|) == |w| + |x|
  {
    var s := w + (x + rest);
    if x == "" {
      assert x + rest == rest;
      assert Has(s, |w|, 'e') == Has(rest, 0, 'e') && Has(s, |w|, 'E') == Has(rest, 0, 'E');
    } else {
      var k := if |x| > 1 && (x[1] == '+' || x[1] == '-') then 2 else 1;
      assert s[|w|] == x[0] && s[|w| + 1] == x[1] && s[|w| + k] == x[k];
      assert IsDigit(x[k..][0]);
      assert s[|w| + k..] == x[k..] + rest;
      DigitLengthOf(x[k..], rest);
    }
  }

  /** Digits with a point, an exponent or both are a float, which keeps its text. */
  lemma LexFloat(whole: string, fraction: string, x: string, rest: string)
    requires whole != "" && AllDigits(whole) && (x == "" || IsExponent(x))
    requires fraction == "" || (fraction[0] == '.' && AllDigits(fraction[1..]))
    requires fraction != "" || x != ""
    requires rest == "" || (!IsIdentPart(rest[0]) && rest[0] != '.')
    ensures var w := whole + fraction + x; Lex(w + rest) == InFront([FloatLit(w)], Lex(rest))
  {
    var w := whole + fraction + x;
    var s := w + rest;
    FloatShape(whole, fraction, x, rest);
    hide NumberShape, IsExponent, Decimal;
    assert s[..|w|] == w && s[0] == whole[0];
    assert LexOne(s) == Lexed(FloatLit(w), |w|);
    LexFront(w, FloatLit(w), rest);
  }

  lemma FloatShape(whole: string, fraction: string, x: string, rest: string)
    requires whole != "" && AllDigits(whole) && (x == "" || IsExponent(x))
    requires fraction == "" || (fraction[0] == '.' && AllDigits(fraction[1..]))
    requires fraction != "" || x != ""
    requires rest == "" || (!IsIdentPart(rest[0]) && rest[0] != '.')
    ensures var w := whole + fraction + x; IsDigit((w + rest)[0]) && NumberShape(w + rest) == (|w|, true)
  {
    hide ExponentEnd, FractionEnd, DigitLength, IsExponent;
    BehindDigits(fraction, x, rest);
    DigitLengthOf(whole, fraction + (x + rest));
    FractionOf(whole, fraction, x + rest);
    ExponentOf(whole + fraction, x, rest);
    FourParts(whole, fraction, x, rest);
    hide AllDigits;
  }

  lemma FourParts(a: string, b: string, c: string, d: string)
    ensures a + b + c + d == a + (b + (c + d)) == (a + b) + (c + d)
    ensures a != "" ==> (a + b + c + d)[0] == a[0]
  {
  }

  lemma BehindDigits(fraction: string, x: string, rest: string)
    requires x == "" || IsExponent(x)
    requires fraction == "" || fraction[0] == '.'
    requires rest == "" || (!IsIdentPart(rest[0]) && rest[0] != '.')
    ensures var tail := fraction + (x + rest); tail == "" || !IsDigit(tail[0])
    ensures x + rest == "" || (!IsDigit((x + rest)[0]) && (x + rest)[0] != '.')
  {
    if fraction != "" { assert (fraction + (x + rest))[0] == '.'; } else { assert fraction + (x + rest) == x + rest; }
    if x != "" { assert (x + rest)[0] == x[0]; } else { assert x + rest == rest; }
  }

  lemma FractionOf(whole: string, fraction: string, rest: string)
    requires fraction == "" || (fraction[0] == '.' && AllDigits(fraction[1..]))
    requires rest == "" || (!IsDigit(rest[0]) && rest[0] != '.')
    ensures FractionEnd(whole + (fraction + rest), |whole|) == |whole| + |fraction|
  {
    var s := whole + (fraction + rest);
    if fraction == "" {
      assert fraction + rest == rest;
      assert Has(s, |whole|, '.') == Has(rest, 0, '.');
    } else {
      assert s[|whole|] == '.';
      assert s[|whole| + 1..] == fraction[1..] + rest;
      DigitLengthOf(fraction[1..], rest);
    }
  }

  // ----- String literals -----

  /** What a backslash makes of the character behind it. */
  predicate Escapes(written: char, c: char) {
    if written == 'n' then c == '\n' else if written == 'r' then c == '\r' else if written == 't' then c == '\t'
    else c == written
  }

  lemma EscapeMeans(written: char, c: char, rest: string)
    requires Escapes(written, c)
    ensures StringBody(['\\', written] + rest) == Longer(c, 2, StringBody(rest))
  {
    var s := ['\\', written] + rest;
    assert s[2..] == rest;
  }

  /** A string literal does not reach over a line break, and not over the end of the text. */
  lemma {:induction false} LexOpenString(s: string, rest: string)
    requires rest == "" || rest[0] == '\n' || rest[0] == '\r'
    ensures StringBody(Escape(s) + rest) == Open
  {
    hide EscapeOne;
    if s == "" {
      assert Escape(s) + rest == rest;
    } else {
      LexOpenString(s[1..], rest);
      StringBodyStep(s[0], Escape(s[1..]) + rest);
      assert Escape(s) + rest == EscapeOne(s[0]) + (Escape(s[1..]) + rest);
    }
  }

  /** What a raw literal writes for a text. */
  function RawText(s: string): string {
    if s == "" then "" else (if s[0] == '`' then "\\`" else [s[0]]) + RawText(s[1..])
  }

  lemma {:induction false} RawBodyOf(s: string, rest: string)
    requires '\r' !in s && (s != "" ==> s[|s| - 1] != '\\')
    ensures RawBody(RawText(s) + ("`" + rest)) == Closed(s, |RawText(s)| + 1)
  {
    hide RawBody, RawText, RawOne, RawUnit;
    RawUnfold(s, "`" + rest);
    if s == "" {
      RawEnd(rest);
    } else {
      RestIsPlain(s);
      RawBodyOf(s[1..], rest);
      RawUnitOf(s[0], s[1..], "`" + rest);
      RawStep(s[0], RawText(s[1..]) + ("`" + rest));
      assert [s[0]] + s[1..] == s;
    }
  }

  lemma RawUnfold(s: string, rest: string)
    ensures s == "" ==> RawText(s) == "" && RawText(s) + rest == rest
    ensures s != "" ==>
      && |RawText(s)| == |RawOne(s[0])| + |RawText(s[1..])|
      && RawText(s) + rest == RawOne(s[0]) + (RawText(s[1..]) + rest)
  {
    if s == "" {
      assert RawText(s) == "";
    } else {
      assert RawText(s) == RawOne(s[0]) + RawText(s[1..]);
      hide RawText, RawOne;
      Reassociate(RawOne(s[0]), RawText(s[1..]), rest);
    }
  }

  lemma Reassociate(a: string, b: string, c: string)
    ensures (a + b) + c == a + (b + c)
  {
  }

  lemma RestIsPlain(s: string)
    requires s != "" && '\r' !in s && s[|s| - 1] != '\\'
    ensures s[0] != '\r' && '\r' !in s[1..] && (s[1..] != "" ==> s[1..][|s| - 2] != '\\')
    ensures s[0] == '\\' ==> s[1..] != ""
  {
    assert s[0] in s;
  }

  lemma RawEnd(rest: string)
    ensures RawBody("`" + rest) == Closed("", 1)
  {
  }

  lemma RawStep(c: char, tail: string)
    requires var t := RawOne(c) + tail; RawUnit(t) == (c, |RawOne(c)|) && t[0] != '`'
    ensures RawBody(RawOne(c) + tail) == Longer(c, |RawOne(c)|, RawBody(tail))
  {
    var t := RawOne(c) + tail;
    assert t[|RawOne(c)|..] == tail;
  }

  function RawOne(c: char): string { if c == '`' then "\\`" else [c] }

  lemma RawUnitOf(c: char, s: string, rest: string)
    requires c != '\r' && (c == '\\' ==> s != "")
    ensures var t := RawOne(c) + (RawText(s) + rest);
      RawUnit(t) == (c, |RawOne(c)|) && t[0] != '`'
  {
    var tail := RawText(s) + rest;
    var t := RawOne(c) + tail;
    if c != '`' && s != "" {
      assert t[1] == RawText(s)[0] && RawText(s)[0] != '`';
    }
  }

  /** A raw literal keeps its characters; a backtick needs a backslash. */
  lemma LexRaw(s: string, rest: string)
    requires '\r' !in s && (s != "" ==> s[|s| - 1] != '\\')
    ensures Lex("`" + RawText(s) + "`" + rest) == InFront([StrLit(s)], Lex(rest))
  {
    var text := "`" + RawText(s) + "`";
    RawBodyOf(s, rest);
    assert (text + rest)[1..] == RawText(s) + ("`" + rest);
    hide RawText, RawBody;
    assert LexOne(text + rest) == Lexed(StrLit(s), |text|);
    LexFront(text, StrLit(s), rest);
  }

  /** The three ways to break a line in a raw literal mean the same. */
  lemma RawLineBreaks(rest: string)
    ensures RawBody("\n" + rest) == Longer('\n', 1, RawBody(rest))
    ensures RawBody("\r\n" + rest) == Longer('\n', 2, RawBody(rest))
    ensures !Has(rest, 0, '\n') ==> RawBody("\r" + rest) == Longer('\n', 1, RawBody(rest))
  {
    assert ("\n" + rest)[1..] == rest && ("\r\n" + rest)[2..] == rest && ("\r" + rest)[1..] == rest;
    assert Has("\r" + rest, 1, '\n') == Has(rest, 0, '\n');
  }
}
