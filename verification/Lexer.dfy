/** Tokens and what the lexer of src/lexer.cpp makes of a text, by recursion on the text that is
    left. Characters are bytes; a text holds no NUL, as the length of a C string guarantees. */
module Lexer {
  datatype TokenType =
    | ModuleKeyword | ImportKeyword | FunKeyword | LetKeyword | TypeKeyword | IfKeyword | WhileKeyword | ElseKeyword
    | MatchKeyword | AsyncKeyword | AwaitKeyword | TrueKeyword | FalseKeyword
    | NumberToken | StringToken | Identifier
    | LParen | RParen | LBrace | RBrace | LBracket | RBracket
    | Comma | Dot | Colon | Semicolon | Equal | Bang
    | Bar            // NOVA_TOKEN_PIPE
    | PipeOperator
    | Arrow | ArrowFn
    | Eof | ErrorToken

  datatype Token = Token(typ: TokenType, lexeme: string)

  predicate NulFree(s: string) {
    '\0' !in s
  }

  // ----- characters -----

  predicate IsAlpha(c: char) {
    'a' <= c <= 'z' || 'A' <= c <= 'Z'
  }

  predicate IsDigit(c: char) {
    '0' <= c <= '9'
  }

  predicate IsWord(c: char) {
    IsAlpha(c) || IsDigit(c) || c == '_'
  }

  predicate IsSpace(c: char) {
    c == ' ' || c == '\r' || c == '\t' || c == '\n'
  }

  /** nova_is_alpha sets the bit 0x20 and compares with lower-case letters only. */
  lemma AlphaByOneBit(b: bv8)
    ensures (97 <= (b | 0x20) <= 122) <==> (97 <= b <= 122 || 65 <= b <= 90)
  {
  }

  // ----- one token -----

  /** nova_match_keyword */
  function KeywordType(lexeme: string): TokenType {
    if lexeme == "async" then AsyncKeyword
    else if lexeme == "await" then AwaitKeyword
    else if lexeme == "else" then ElseKeyword
    else if lexeme == "fun" then FunKeyword
    else if lexeme == "false" then FalseKeyword
    else if lexeme == "if" then IfKeyword
    else if lexeme == "import" then ImportKeyword
    else if lexeme == "let" then LetKeyword
    else if lexeme == "match" then MatchKeyword
    else if lexeme == "module" then ModuleKeyword
    else if lexeme == "type" then TypeKeyword
    else if lexeme == "true" then TrueKeyword
    else if lexeme == "while" then WhileKeyword
    else Identifier
  }

  /** How many characters of a word, or of a row of digits, begin `s`. */
  function WordLength(s: string): (n: nat)
    ensures n <= |s|
  {
    if s != [] && IsWord(s[0]) then 1 + WordLength(s[1..]) else 0
  }

  function DigitsLength(s: string): (n: nat)
    ensures n <= |s|
  {
    if s != [] && IsDigit(s[0]) then 1 + DigitsLength(s[1..]) else 0
  }

  function NumberLength(s: string): (n: nat)
    ensures n <= |s|
  {
    var n := DigitsLength(s);
    if n < |s| && s[n] == '.' then n + 1 + DigitsLength(s[n + 1..]) else n
  }

  predicate Quotes(s: string, n: nat) {
    n <= |s| && forall i :: 0 <= i < n ==> s[i] == '\"'
  }

  datatype Closing = Closed(length: nat) | Open

  /** How far it is to the end of the closing quote, or quotes, inside a string. */
  function ClosingLength(s: string, triple: bool): (r: Closing)
    ensures r.Closed? ==> 0 < r.length <= |s|
    decreases |s|
  {
    if s == [] then Open
    else if !triple && s[0] == '\"' then Closed(1)
    else if triple && Quotes(s, 3) then Closed(3)
    else
      var step := if s[0] == '\\' && |s| > 1 then 2 else 1;
      match ClosingLength(s[step..], triple)
      case Closed(n) => Closed(step + n)
      case Open => Open
  }

  function OpeningLength(s: string): nat {
    if Quotes(s, 3) then 3 else 1
  }

  /** The length of the string literal that begins `s`. */
  function StringLength(s: string): (r: Closing)
    requires s != []
    ensures r.Closed? ==> 0 < r.length <= |s|
  {
    var n := OpeningLength(s);
    match ClosingLength(s[n..], n == 3)
    case Closed(k) => Closed(n + k)
    case Open => Open
  }

  datatype Scanned = Scanned(typ: TokenType, length: nat)

  function Either(s: string, next: char, both: TokenType, alone: TokenType): Scanned {
    if |s| > 1 && s[1] == next then Scanned(both, 2) else Scanned(alone, 1)
  }

  /** The token at the very beginning of `s`. */
  function Scan(s: string): (r: Scanned)
    requires s != []
    ensures r.typ != Eof
    ensures r.typ != ErrorToken ==> 0 < r.length <= |s|
  {
    var c := s[0];
    if IsAlpha(c) || c == '_' then
      var n := WordLength(s);
      Scanned(KeywordType(s[..n]), n)
    else if IsDigit(c) then Scanned(NumberToken, NumberLength(s))
    else
      match c
      case '(' => Scanned(LParen, 1)
      case ')' => Scanned(RParen, 1)
      case '{' => Scanned(LBrace, 1)
      case '}' => Scanned(RBrace, 1)
      case '[' => Scanned(LBracket, 1)
      case ']' => Scanned(RBracket, 1)
      case ',' => Scanned(Comma, 1)
      case ';' => Scanned(Semicolon, 1)
      case '.' => Scanned(Dot, 1)
      case ':' => Scanned(Colon, 1)
      case '=' => Either(s, '>', ArrowFn, Equal)
      case '!' => Scanned(Bang, 1)
      case '|' => Either(s, '>', PipeOperator, Bar)
      case '-' => if |s| > 1 && s[1] != '>' then Scanned(ErrorToken, 2) else Either(s, '>', Arrow, ErrorToken)
      case '\"' =>
        (match StringLength(s)
         case Closed(n) => Scanned(StringToken, n)
         case Open => Scanned(ErrorToken, |s|))
      case _ => Scanned(ErrorToken, 1)
  }

  // ----- all tokens -----

  function CommentLength(s: string): (n: nat)
    ensures n <= |s|
    ensures n < |s| ==> s[n] == '\n'
    ensures forall i :: 0 <= i < n ==> s[i] != '\n'
  {
    if s != [] && s[0] != '\n' then 1 + CommentLength(s[1..]) else 0
  }

  /** How many characters of white space and comments begin `s`. */
  function BlankLength(s: string): (n: nat)
    ensures n <= |s|
    decreases |s|
  {
    if s == [] then 0
    else if IsSpace(s[0]) then 1 + BlankLength(s[1..])
    else if s[0] == '#' then CommentLength(s) + BlankLength(s[CommentLength(s)..])
    else 0
  }

  /** nova_lexer_tokenize: the tokens up to and including the first Eof or ErrorToken. */
  function Lex(s: string): (ts: seq<Token>)
    ensures ts != []
    decreases |s|
  {
    var rest := s[BlankLength(s)..];
    if rest == [] then [Token(Eof, [])]
    else
      var first := Scan(rest);
      if first.typ == ErrorToken then [Token(ErrorToken, [])]
      else [Token(first.typ, rest[..first.length])] + Lex(rest[first.length..])
  }

  /** Lex, once what is blank has been skipped. */
  lemma LexFrom(s: string, rest: string)
    requires rest == s[BlankLength(s)..]
    ensures Lex(s) ==
            if rest == [] then [Token(Eof, [])]
            else
              var first := Scan(rest);
              if first.typ == ErrorToken then [Token(ErrorToken, [])]
              else [Token(first.typ, rest[..first.length])] + Lex(rest[first.length..])
  {
  }

  /** Lexing found no error. */
  predicate Lexes(s: string) {
    var ts := Lex(s);
    ts[|ts| - 1].typ == Eof
  }
}
