/** The grammar written the other way round: the tokens of a syntax tree, and the trees that have
    some. This is the specification the parser is proved against; what can be written in more ways
    than one is left to a style. */
module Printer {
  import opened Lexer
  import opened Syntax
  import opened Parser

  /** What is left to whoever writes a program down, place by place, where a place is how many tokens
      stand behind it: semicolons, commas behind imported symbols, empty parentheses behind patterns and
      variants, and empty braces behind imports, all of which can be left out; and how the tokens that
      have no name or value are spelled, at which the parser does not look. */
  datatype Style = Style(
    semicolon: nat -> bool,
    comma: nat -> bool,
    parens: nat -> bool,
    braces: nat -> bool,
    spelling: (TokenType, nat) -> string)

  /** How the lexer wants these tokens spelled; no others have a fixed spelling. */
  function Spelling(typ: TokenType): string {
    match typ
    case IfKeyword => "if"
    case WhileKeyword => "while"
    case ElseKeyword => "else"
    case MatchKeyword => "match"
    case AsyncKeyword => "async"
    case AwaitKeyword => "await"
    case TrueKeyword => "true"
    case FalseKeyword => "false"
    case ModuleKeyword => "module"
    case ImportKeyword => "import"
    case FunKeyword => "fun"
    case LetKeyword => "let"
    case TypeKeyword => "type"
    case LParen => "("
    case RParen => ")"
    case LBrace => "{"
    case RBrace => "}"
    case LBracket => "["
    case RBracket => "]"
    case Comma => ","
    case Dot => "."
    case Colon => ":"
    case Semicolon => ";"
    case Equal => "="
    case Bang => "!"
    case Bar => "|"
    case PipeOperator => "|>"
    case Arrow => "->"
    case ArrowFn => "=>"
    case _ => ""
  }

  /** Nothing that can be left out, and everything as the lexer wants it. */
  const Plain := Style(n => false, n => false, n => false, n => false, (typ, n) => Spelling(typ))

  /** Every function below puts the tokens of something in front of `rest`. */
  function Word(name: string, rest: Tokens): (r: Tokens)
    ensures r != [] && r[0] == Token(Identifier, name) && r[1..] == rest
  {
    [Token(Identifier, name)] + rest
  }

  function Put(typ: TokenType, style: Style, rest: Tokens): (r: Tokens)
    ensures r != [] && r[0].typ == typ && r[1..] == rest
  {
    [Token(typ, style.spelling(typ, |rest|))] + rest
  }

  function PrintParam(param: Param, style: Style, rest: Tokens): Tokens {
    Word(param.name, if param.typeName.Some? then Put(Colon, style, Word(param.typeName.value, rest)) else rest)
  }

  /** A parameter list with its closing parenthesis. */
  function PrintParams(params: seq<Param>, style: Style, rest: Tokens): Tokens {
    if params == [] then Put(RParen, style, rest) else PrintSomeParams(params, style, rest)
  }

  function PrintSomeParams(params: seq<Param>, style: Style, rest: Tokens): Tokens
    requires params != []
  {
    PrintParam(params[0], style, if |params| == 1 then Put(RParen, style, rest) else Put(Comma, style, PrintSomeParams(params[1..], style, rest)))
  }

  // ----- which trees -----

  /** Parsing the tokens of `e` ends where they end, even in front of `(` or `|>`. */
  predicate SelfEnding(e: Expr) {
    match e
    case If(_, _, _) => true
    case While(_, _) => true
    case Match(_, _) => true
    case Async(_) => true
    case Await(inner) => SelfEnding(inner)
    case Effect(inner) => SelfEnding(inner)
    case _ => false
  }

  /** Another argument list, or another stage, can follow: only a lambda's body may swallow it. */
  predicate Continuable(e: Expr) {
    e.Lambda? ==> SelfEnding(e.body)
  }

  predicate OpensWithParen(e: Expr) {
    match e
    case Paren(_) => true
    case Lambda(_, _) => true
    case Call(callee, _) => OpensWithParen(callee)
    case Pipe(target, _) => OpensWithParen(target)
    case _ => false
  }

  /** Two items of a block that would be read as a call if nothing stood between them. */
  predicate MustSeparate(item: Expr, next: Expr) {
    !SelfEnding(item) && OpensWithParen(next)
  }

  predicate IsBlock(e: Expr) {
    e.Block?
  }

  /** Where the grammar wants a call or less: a literal, name, group, block, list, lambda or call. */
  predicate CallLevel(e: Expr) {
    match e
    case UnitLiteral => false
    case Pipe(_, _) => false
    case If(_, _, _) => false
    case While(_, _) => false
    case Match(_, _) => false
    case Async(_) => false
    case Await(_) => false
    case Effect(_) => false
    case _ => true
  }

  /** The trees the parser builds without an error. */
  predicate Printable(e: Expr)
    decreases e, 0
  {
    match e
    case Number(_) => true
    case Str(_) => true
    case Bool(_) => true
    case UnitLiteral => false
    case Ident(_) => true
    case ListLiteral(es) => AllPrintable(es)
    case Call(callee, args) => Printable(callee) && CallLevel(callee) && Continuable(callee) && ArgsPrintable(args)
    case Pipe(target, stages) =>
      Printable(target) && CallLevel(target) && Continuable(target) && stages != [] && StagesPrintable(stages)
    case If(c, yes, no) =>
      Printable(c) && Printable(yes) && IsBlock(yes) && (no.Some? ==> Printable(no.value) && (IsBlock(no.value) || no.value.If?))
    case While(c, body) => Printable(c) && Printable(body) && IsBlock(body)
    case Block(items) => AllPrintable(items)
    case Paren(inner) => Printable(inner)
    case Match(s, arms) => Printable(s) && ArmsPrintable(arms)
    case Async(body) => Printable(body) && IsBlock(body)
    case Await(inner) => Printable(inner)
    case Effect(inner) => Printable(inner)
    case Lambda(_, body) => Printable(body)
  }

  predicate AllPrintable(es: seq<Expr>)
    decreases es, 0
  {
    es == [] || (Printable(es[0]) && AllPrintable(es[1..]))
  }

  predicate ArgsPrintable(args: seq<Arg>)
    decreases args, 0
  {
    args == [] || (assert args[0].value < args[0]; Printable(args[0].value) && ArgsPrintable(args[1..]))
  }

  predicate ArmsPrintable(arms: seq<Arm>)
    decreases arms, 0
  {
    arms == [] || (Printable(arms[0].body) && ArmsPrintable(arms[1..]))
  }

  predicate StagesPrintable(stages: seq<Expr>)
    decreases stages, 0
  {
    stages == []
    || (Printable(stages[0]) && CallLevel(stages[0]) && (|stages| > 1 ==> Continuable(stages[0])) && StagesPrintable(stages[1..]))
  }

  // ----- their tokens -----

  function Print(e: Expr, style: Style, rest: Tokens): Tokens
    decreases e, 0
  {
    match e
    case Number(text) => [Token(NumberToken, text)] + rest
    case Str(text) => [Token(StringToken, text)] + rest
    case Bool(b) => Put(if b then TrueKeyword else FalseKeyword, style, rest)
    case UnitLiteral => rest
    case Ident(x) => Word(x, rest)
    case ListLiteral(es) => Put(LBracket, style, PrintElements(es, style, rest))
    case Call(callee, args) => Print(callee, style, Put(LParen, style, PrintArgs(args, style, rest)))
    case Pipe(target, stages) => Print(target, style, PrintStages(stages, style, rest))
    case If(c, yes, no) =>
      var tail := if no.Some? then Put(ElseKeyword, style, Print(no.value, style, rest)) else rest;
      Put(IfKeyword, style, Print(c, style, Print(yes, style, tail)))
    case While(c, body) => Put(WhileKeyword, style, Print(c, style, Print(body, style, rest)))
    case Block(items) => Put(LBrace, style, PrintItems(items, style, rest))
    case Paren(inner) => Put(LParen, style, Print(inner, style, Put(RParen, style, rest)))
    case Match(s, arms) => Put(MatchKeyword, style, Print(s, style, Put(LBrace, style, PrintArms(arms, style, rest))))
    case Async(body) => Put(AsyncKeyword, style, Print(body, style, rest))
    case Await(inner) => Put(AwaitKeyword, style, Print(inner, style, rest))
    case Effect(inner) => Put(Bang, style, Print(inner, style, rest))
    case Lambda(params, body) => Put(LParen, style, PrintParams(params, style, Put(Arrow, style, Print(body, style, rest))))
  }

  function PrintElements(es: seq<Expr>, style: Style, rest: Tokens): Tokens
    decreases es, 1
  {
    if es == [] then Put(RBracket, style, rest) else PrintSomeElements(es, style, rest)
  }

  function PrintSomeElements(es: seq<Expr>, style: Style, rest: Tokens): Tokens
    requires es != []
    decreases es, 0
  {
    Print(es[0], style, if |es| == 1 then Put(RBracket, style, rest) else Put(Comma, style, PrintSomeElements(es[1..], style, rest)))
  }

  function PrintArgs(args: seq<Arg>, style: Style, rest: Tokens): Tokens
    decreases args, 1
  {
    if args == [] then Put(RParen, style, rest) else PrintSomeArgs(args, style, rest)
  }

  function PrintSomeArgs(args: seq<Arg>, style: Style, rest: Tokens): Tokens
    requires args != []
    decreases args, 0
  {
    assert args[0].value < args[0];
    var tail := if |args| == 1 then Put(RParen, style, rest) else Put(Comma, style, PrintSomeArgs(args[1..], style, rest));
    var value := Print(args[0].value, style, tail);
    if args[0].argName.Some? then Word(args[0].argName.value, Put(Equal, style, value)) else value
  }

  function PrintStages(stages: seq<Expr>, style: Style, rest: Tokens): Tokens
    decreases stages, 0
  {
    if stages == [] then rest else Put(PipeOperator, style, Print(stages[0], style, PrintStages(stages[1..], style, rest)))
  }

  /** A semicolon behind an item, in front of `rest`, where one is needed or the style wants it. */
  predicate Separated(items: seq<Expr>, style: Style, rest: Tokens)
    requires items != []
  {
    (|items| > 1 && MustSeparate(items[0], items[1])) || style.semicolon(|rest|)
  }

  function Separate(semicolon: bool, style: Style, rest: Tokens): Tokens {
    if semicolon then Put(Semicolon, style, rest) else rest
  }

  /** The items of a block with its closing brace. */
  function PrintItems(items: seq<Expr>, style: Style, rest: Tokens): Tokens
    decreases items, 0
  {
    if items == [] then Put(RBrace, style, rest)
    else
      var more := PrintItems(items[1..], style, rest);
      Print(items[0], style, Separate(Separated(items, style, more), style, more))
  }

  function PrintBindings(bindings: seq<Param>, style: Style, rest: Tokens): Tokens {
    if bindings == [] && !style.parens(|rest|) then rest else Put(LParen, style, PrintParams(bindings, style, rest))
  }

  /** The arms of a match with its closing brace. */
  function PrintArms(arms: seq<Arm>, style: Style, rest: Tokens): Tokens
    decreases arms, 0
  {
    if arms == [] then Put(RBrace, style, rest)
    else
      var more := PrintArms(arms[1..], style, rest);
      var tail := Separate(style.semicolon(|more|), style, more);
      Word(arms[0].name, PrintBindings(arms[0].bindings, style, Put(Arrow, style, Print(arms[0].body, style, tail))))
  }
}
