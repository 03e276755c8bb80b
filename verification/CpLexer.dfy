/** The lexer of the compiler (compiler/src/lexer.c) without line and column numbers. */
module CpLexer {
  datatype Option<+T> = None | Some(value: T)

  const INT_MAX: int := 0x7FFF_FFFF

  /** Symbols are named by their spelling, keywords by their word; a float keeps its text. */
  datatype Token =
    | Ident(name: string)
    | Num(n: int)
    | FloatLit(text: string)
    | StrLit(s: string)
    | BoolLit(b: bool)
    | Word(word: string)
    | Sym(sym: string)
    | UnknownChar
    | EndOfFile

  predicate IsSpace(c: char) { c == ' ' || '\t' <= c <= '\r' }
  predicate IsDigit(c: char) { '0' <= c <= '9' }
  predicate IsIdentStart(c: char) { 'a' <= c <= 'z' || 'A' <= c <= 'Z' || c == '_' }
  predicate IsIdentPart(c: char) { IsIdentStart(c) || IsDigit(c) }

  const KEYWORDS: seq<string> := [
    "let", "var", "const", "func", "package", "import", "print", "prints", "if", "else", "while", "for",
    "return", "break", "continue", "switch", "case", "default", "window", "text"
  ]

  function WordToken(w: string): Token {
    if w in KEYWORDS then Word(w) else if w == "true" then BoolLit(true) else if w == "false" then BoolLit(false)
    else Ident(w)
  }

  predicate Has(s: string, i: nat, c: char) { i < |s| && s[i] == c }
  predicate HasDigit(s: string, i: nat) { i < |s| && IsDigit(s[i]) }

  /** How many characters from the front belong to an identifier, are digits, or come before a line break. */
  function IdentLength(s: string): (n: nat)
    ensures n <= |s|
    ensures forall i :: 0 <= i < n ==> IsIdentPart(s[i])
    ensures n < |s| ==> !IsIdentPart(s[n])
  {
    if s != "" && IsIdentPart(s[0]) then 1 + IdentLength(s[1..]) else 0
  }

  function DigitLength(s: string): (n: nat)
    ensures n <= |s|
    ensures forall i :: 0 <= i < n ==> IsDigit(s[i])
    ensures n < |s| ==> !IsDigit(s[n])
  {
    if s != "" && IsDigit(s[0]) then 1 + DigitLength(s[1..]) else 0
  }

  function LineLength(s: string): (n: nat)
    ensures n <= |s|
    ensures forall i :: 0 <= i < n ==> s[i] != '\n' && s[i] != '\r'
    ensures n < |s| ==> s[n] == '\n' || s[n] == '\r'
  {
    if s != "" && s[0] != '\n' && s[0] != '\r' then 1 + LineLength(s[1..]) else 0
  }

  /** The position of the first end of a comment, or |s|. */
  function CommentLength(s: string): (n: nat)
    ensures n <= |s|
    ensures n < |s| ==> s[n] == '*' && Has(s, n + 1, '/')
    ensures forall i :: 0 <= i < n ==> !(s[i] == '*' && Has(s, i + 1, '/'))
  {
    if s == "" || (s[0] == '*' && Has(s, 1, '/')) then 0 else 1 + CommentLength(s[1..])
  }

  function DigitValue(c: char): nat
    requires IsDigit(c)
  {
    c as int - '0' as int
  }

  function Decimal(digits: string): nat
    requires forall i :: 0 <= i < |digits| ==> IsDigit(digits[i])
  {
    if digits == "" then 0 else 10 * Decimal(digits[..|digits| - 1]) + DigitValue(digits[|digits| - 1])
  }

  // ----- Literals -----

  datatype Body = Open | Closed(value: string, length: nat)

  function Unescape(c: char): char {
    if c == 'n' then '\n' else if c == 'r' then '\r' else if c == 't' then '\t' else c
  }

  /** What follows an opening quote, up to and including the closing one. */
  function StringBody(s: string): (r: Body)
    ensures r.Closed? ==> r.length <= |s|
  {
    if s == "" || s[0] == '\n' || s[0] == '\r' then Open
    else if s[0] == '"' then Closed("", 1)
    else if s[0] == '\\' then
      if |s| < 2 then Open else Longer(Unescape(s[1]), 2, StringBody(s[2..]))
    else Longer(s[0], 1, StringBody(s[1..]))
  }

  /** One character of a raw literal: line breaks are unified and \` is a backtick. */
  function RawUnit(s: string): (r: (char, nat))
    requires s != ""
    ensures 1 <= r.1 <= |s|
  {
    if s[0] == '\\' && Has(s, 1, '`') then ('`', 2)
    else if s[0] == '\r' then ('\n', if Has(s, 1, '\n') then 2 else 1)
    else (s[0], 1)
  }

  /** What follows an opening backtick. */
  function RawBody(s: string): (r: Body)
    ensures r.Closed? ==> r.length <= |s|
  {
    if s == "" then Open
    else if s[0] == '`' then Closed("", 1)
    else Longer(RawUnit(s).0, RawUnit(s).1, RawBody(s[RawUnit(s).1..]))
  }

  function Longer(c: char, n: nat, rest: Body): Body {
    match rest
    case Open => Open
    case Closed(value, length) => Closed([c] + value, n + length)
  }

  /** Behind a point and its digits. */
  function FractionEnd(s: string, n: nat): (r: nat)
    requires n <= |s|
    ensures n <= r <= |s|
  {
    if Has(s, n, '.') then n + 1 + DigitLength(s[n + 1..]) else n
  }

  /** Behind an exponent; without digits there is none. */
  function ExponentEnd(s: string, n: nat): (r: nat)
    requires n <= |s|
    ensures n <= r <= |s|
  {
    if Has(s, n, 'e') || Has(s, n, 'E') then
      var d := n + 1 + if Has(s, n + 1, '+') || Has(s, n + 1, '-') then 1 else 0;
      if HasDigit(s, d) then d + DigitLength(s[d..]) else n
    else n
  }

  /** The length of a number and whether it is a float. */
  function NumberShape(s: string): (r: (nat, bool))
    requires s != "" && IsDigit(s[0])
    ensures 0 < r.0 <= |s| && (!r.1 ==> r.0 == DigitLength(s))
  {
    var whole := DigitLength(s);
    var end := ExponentEnd(s, FractionEnd(s, whole));
    (end, end > whole)
  }

  // ----- One lexeme -----

  datatype Lexeme = Blank(length: nat) | Lexed(token: Token, length: nat) | Bad

  predicate IsSymbol(c: char) {
    c == '=' || c == '!' || c == '<' || c == '>' || c == '+' || c == '-' || c == '*' || c == '%' || c == '/'
    || c == '.' || c == ':' || c == '(' || c == ')' || c == '[' || c == ']' || c == '{' || c == '}' || c == ',' || c == ';'
  }

  /** Symbols of one or two characters. */
  function SymbolAt(s: string): (r: Lexeme)
    requires s != ""
    ensures r.Lexed? && 1 <= r.length <= |s|
  {
    var c := s[0];
    if (c == '=' || c == '!' || c == '<' || c == '>') && Has(s, 1, '=') then Lexed(Sym([c, '=']), 2)
    else if (c == '&' || c == '|') && Has(s, 1, c) then Lexed(Sym([c, c]), 2)
    else if c == '&' || c == '|' then Lexed(UnknownChar, 1)
    else if IsSymbol(c) then Lexed(Sym([c]), 1)
    else Lexed(UnknownChar, 1)
  }

  function LexOne(s: string): (r: Lexeme)
    requires s != ""
    ensures !r.Bad? ==> 1 <= r.length <= |s|
  {
    var c := s[0];
    if IsSpace(c) then Blank(1)
    else if IsIdentStart(c) then Lexed(WordToken(s[..IdentLength(s)]), IdentLength(s))
    else if c == '`' then
      (match RawBody(s[1..]) case Open => Bad case Closed(v, n) => Lexed(StrLit(v), 1 + n))
    else if c == '"' then
      (match StringBody(s[1..]) case Open => Bad case Closed(v, n) => Lexed(StrLit(v), 1 + n))
    else if IsDigit(c) then NumberAt(s)
    else if c == '/' && Has(s, 1, '/') then Blank(2 + LineLength(s[2..]))
    else if c == '/' && Has(s, 1, '*') then
      var n := CommentLength(s[2..]);
      if n == |s| - 2 then Bad else Blank(2 + n + 2)
    else SymbolAt(s)
  }

  /** An integer that does not fit is an error. */
  function NumberAt(s: string): (r: Lexeme)
    requires s != "" && IsDigit(s[0])
    ensures !r.Bad? ==> 1 <= r.length <= |s|
  {
    var (n, isFloat) := NumberShape(s);
    if isFloat then Lexed(FloatLit(s[..n]), n)
    else if Decimal(s[..n]) <= INT_MAX then Lexed(Num(Decimal(s[..n])), n)
    else Bad
  }

  /** lexer_tokenize up to the end-of-file token; None is a lexer error. */
  function Lex(s: string): Option<seq<Token>>
    decreases |s|
  {
    if s == "" then Some([])
    else
      match LexOne(s)
      case Bad => None
      case Blank(n) => Lex(s[n..])
      case Lexed(t, n) =>
        match Lex(s[n..])
        case None => None
        case Some(ts) => Some([t] + ts)
  }

  // ----- The lexer in its own form -----

  method ScanIdent(source: string, p: nat) returns (q: nat)
    requires p <= |source|
    ensures q == p + IdentLength(source[p..])
  {
    q := p;
    while q < |source| && IsIdentPart(source[q])
      invariant p <= q <= |source|
      invariant IdentLength(source[p..]) == q - p + IdentLength(source[q..])
    {
      assert source[q..][1..] == source[q + 1..];
      q := q + 1;
    }
  }

  method ScanDigits(source: string, p: nat) returns (q: nat)
    requires p <= |source|
    ensures q == p + DigitLength(source[p..])
  {
    q := p;
    while q < |source| && IsDigit(source[q])
      invariant p <= q <= |source|
      invariant DigitLength(source[p..]) == q - p + DigitLength(source[q..])
    {
      assert source[q..][1..] == source[q + 1..];
      q := q + 1;
    }
  }

  method ScanLine(source: string, p: nat) returns (q: nat)
    requires p <= |source|
    ensures q == p + LineLength(source[p..])
  {
    q := p;
    while q < |source| && source[q] != '\n' && source[q] != '\r'
      invariant p <= q <= |source|
      invariant LineLength(source[p..]) == q - p + LineLength(source[q..])
    {
      assert source[q..][1..] == source[q + 1..];
      q := q + 1;
    }
  }

  method ScanComment(source: string, p: nat) returns (q: nat)
    requires p <= |source|
    ensures q == p + CommentLength(source[p..])
  {
    q := p;
    while q < |source| && !(source[q] == '*' && q + 1 < |source| && source[q + 1] == '/')
      invariant p <= q <= |source|
      invariant CommentLength(source[p..]) == q - p + CommentLength(source[q..])
    {
      assert source[q..][1..] == source[q + 1..];
      q := q + 1;
    }
  }

  /** The literal's text so far, in front of what the rest adds. */
  ghost function Behind(text: string, n: nat, rest: Body): Body {
    match rest
    case Open => Open
    case Closed(value, length) => Closed(text + value, n + length)
  }

  lemma BehindMore(text: string, n: nat, c: char, k: nat, rest: Body)
    ensures Behind(text, n, Longer(c, k, rest)) == Behind(text + [c], n + k, rest)
  {
    if rest.Closed? { assert text + ([c] + rest.value) == (text + [c]) + rest.value; }
  }

  method ScanString(source: string, p: nat) returns (ok: bool, value: string, q: nat)
    requires p <= |source|
    ensures var b := StringBody(source[p..]); ok == b.Closed? && (ok ==> value == b.value && q == p + b.length)
  {
    value, q := "", p;
    while q < |source| && source[q] != '"' && source[q] != '\n' && source[q] != '\r'
      invariant p <= q <= |source|
      invariant StringBody(source[p..]) == Behind(value, q - p, StringBody(source[q..]))
      decreases |source| - q
    {
      var ch := source[q];
      assert source[q..][1..] == source[q + 1..];
      if ch == '\\' {
        if q + 1 == |source| { return false, value, q; }
        assert source[q..][1] == source[q + 1] && source[q..][2..] == source[q + 2..];
        ch := Unescape(source[q + 1]);
        BehindMore(value, q - p, ch, 2, StringBody(source[q + 2..]));
        q := q + 2;
      } else {
        BehindMore(value, q - p, ch, 1, StringBody(source[q + 1..]));
        q := q + 1;
      }
      value := value + [ch];
    }
    ok := q < |source| && source[q] == '"';
    if ok { q := q + 1; assert value + "" == value; }
  }

  method ScanRaw(source: string, p: nat) returns (ok: bool, value: string, q: nat)
    requires p <= |source|
    ensures var b := RawBody(source[p..]); ok == b.Closed? && (ok ==> value == b.value && q == p + b.length)
  {
    hide RawUnit;
    value, q := "", p;
    while q < |source| && source[q] != '`'
      invariant p <= q <= |source|
      invariant RawBody(source[p..]) == Behind(value, q - p, RawBody(source[q..]))
      decreases |source| - q
    {
      var ch, n := ScanRawUnit(source, q);
      assert source[q..][n..] == source[q + n..];
      BehindMore(value, q - p, ch, n, RawBody(source[q + n..]));
      value := value + [ch];
      q := q + n;
    }
    ok := q < |source|;
    if ok { q := q + 1; assert value + "" == value; }
  }

  method ScanRawUnit(source: string, q: nat) returns (ch: char, n: nat)
    requires q < |source|
    ensures (ch, n) == RawUnit(source[q..]) && 1 <= n && q + n <= |source|
  {
    var next := q + 1 < |source|;
    if source[q] == '\\' && next && source[q + 1] == '`' {
      ch, n := '`', 2;
    } else if source[q] == '\r' {
      ch, n := '\n', if next && source[q + 1] == '\n' then 2 else 1;
    } else {
      ch, n := source[q], 1;
    }
  }

  method ScanFraction(source: string, p: nat, n: nat) returns (q: nat)
    requires p + n <= |source|
    ensures q == p + FractionEnd(source[p..], n)
  {
    q := p + n;
    if q < |source| && source[q] == '.' {
      assert source[p..][n + 1..] == source[q + 1..];
      q := ScanDigits(source, q + 1);
    }
  }

  method ScanExponent(source: string, p: nat, n: nat) returns (q: nat)
    requires p + n <= |source|
    ensures q == p + ExponentEnd(source[p..], n)
  {
    hide DigitLength;
    var s := source[p..];
    assert forall i :: 0 <= i < |s| ==> s[i] == source[p + i];
    q := p + n;
    if q < |source| && (source[q] == 'e' || source[q] == 'E') {
      var d := q + 1;
      if d < |source| && (source[d] == '+' || source[d] == '-') { d := d + 1; }
      if d < |source| && IsDigit(source[d]) {
        assert s[d - p..] == source[d..];
        q := ScanDigits(source, d);
      }
    }
  }

  method ScanNumber(source: string, p: nat) returns (l: Lexeme)
    requires p < |source| && IsDigit(source[p])
    ensures l == NumberAt(source[p..])
  {
    hide ExponentEnd, FractionEnd, DigitLength, Decimal;
    var whole := ScanDigits(source, p);
    var fraction := ScanFraction(source, p, whole - p);
    var q := ScanExponent(source, p, fraction - p);
    assert source[p..q] == source[p..][..q - p];
    if q > whole {
      l := Lexed(FloatLit(source[p..q]), q - p);
    } else {
      var digits := source[p..q];
      l := if Decimal(digits) <= INT_MAX then Lexed(Num(Decimal(digits)), q - p) else Bad;
    }
  }

  /** What stands at p. */
  method ScanOne(source: string, p: nat) returns (l: Lexeme)
    requires p < |source|
    ensures l == LexOne(source[p..])
  {
    hide WordToken, NumberAt, SymbolAt, StringBody, RawBody, LineLength, CommentLength, IdentLength;
    var s := source[p..];
    var c := source[p];
    if IsSpace(c) {
      l := Blank(1);
    } else if IsIdentStart(c) {
      var q := ScanIdent(source, p);
      assert source[p..q] == s[..q - p];
      l := Lexed(WordToken(source[p..q]), q - p);
    } else if c == '`' || c == '"' {
      assert s[1..] == source[p + 1..];
      var ok, value, q;
      if c == '`' { ok, value, q := ScanRaw(source, p + 1); } else { ok, value, q := ScanString(source, p + 1); }
      l := if ok then Lexed(StrLit(value), q - p) else Bad;
    } else if IsDigit(c) {
      l := ScanNumber(source, p);
    } else if c == '/' && p + 1 < |source| && (source[p + 1] == '/' || source[p + 1] == '*') {
      assert s[1] == source[p + 1] && s[2..] == source[p + 2..];
      if source[p + 1] == '/' {
        var q := ScanLine(source, p + 2);
        l := Blank(q - p);
      } else {
        var q := ScanComment(source, p + 2);
        l := if q == |source| then Bad else Blank(q + 2 - p);
      }
    } else {
      l := SymbolAt(s);
    }
  }

  /** The tokens so far, in front of those of the rest. */
  ghost function InFront(tokens: seq<Token>, rest: Option<seq<Token>>): Option<seq<Token>> {
    match rest
    case None => None
    case Some(ts) => Some(tokens + ts)
  }

  lemma NothingInFront(rest: Option<seq<Token>>)
    ensures InFront([], rest) == rest
  {
    if rest.Some? { assert [] + rest.value == rest.value; }
  }

  /** lexer_tokenize: the tokens of the text, closed by an end-of-file token. */
  method Tokenize(source: string) returns (r: Option<seq<Token>>)
    ensures r == match Lex(source) case None => None case Some(ts) => Some(ts + [EndOfFile])
  {
    hide LexOne;
    var tokens: seq<Token> := [];
    var p := 0;
    assert source[0..] == source;
    NothingInFront(Lex(source));
    while p < |source|
      invariant p <= |source|
      invariant Lex(source) == InFront(tokens, Lex(source[p..]))
    {
      var l := ScanOne(source, p);
      if l.Bad? { return None; }
      assert source[p..][l.length..] == source[p + l.length..];
      if l.Lexed? {
        var more := Lex(source[p + l.length..]);
        if more.Some? { assert tokens + ([l.token] + more.value) == (tokens + [l.token]) + more.value; }
        tokens := tokens + [l.token];
      }
      p := p + l.length;
    }
    assert tokens + [] == tokens;
    r := Some(tokens + [EndOfFile]);
  }
}
