/** The recursive-descent parser of src/parser.cpp as functions on the tokens that are left. Parsing
    stops at the first error, where the program reports a diagnostic; what it does afterwards is
    not described. */
module Parser {
  import opened Lexer
  import opened Syntax

  type Tokens = seq<Token>

  datatype Result<T> = Parsed(value: T, rest: Tokens) | Failed

  /** The type of the next token; Eof behind the last. */
  function Head(ts: Tokens): TokenType {
    if ts == [] then Eof else ts[0].typ
  }

  predicate Starts(ts: Tokens, typ: TokenType) {
    ts != [] && ts[0].typ == typ
  }

  // ----- parameters -----

  function ParseParam(ts: Tokens): (r: Result<Param>)
    ensures r.Parsed? ==> |r.rest| < |ts|
  {
    if !Starts(ts, Identifier) then Failed
    else if !Starts(ts[1..], Colon) then Parsed(Param(ts[0].lexeme, None), ts[1..])
    else if !Starts(ts[2..], Identifier) then Failed
    else Parsed(Param(ts[0].lexeme, Some(ts[2].lexeme)), ts[3..])
  }

  /** One or more parameters and the closing parenthesis. */
  function ParseSomeParams(ts: Tokens): (r: Result<seq<Param>>)
    ensures r.Parsed? ==> |r.rest| < |ts|
    decreases |ts|
  {
    match ParseParam(ts)
    case Failed => Failed
    case Parsed(param, rest) =>
      if Starts(rest, Comma) then
        match ParseSomeParams(rest[1..])
        case Failed => Failed
        case Parsed(params, left) => Parsed([param] + params, left)
      else if Starts(rest, RParen) then Parsed([param], rest[1..])
      else Failed
  }

  /** parse_param_list, up to and including the closing parenthesis. */
  function ParseParams(ts: Tokens): (r: Result<seq<Param>>)
    ensures r.Parsed? ==> |r.rest| < |ts|
  {
    if Starts(ts, RParen) then Parsed([], ts[1..]) else ParseSomeParams(ts)
  }

  /** The loop of lookahead_lambda: what is left behind the closing parenthesis of something that
      can be a parameter list. */
  function SkipParams(ts: Tokens): Option<Tokens> {
    if ts == [] then None
    else if ts[0].typ == RParen then Some(ts[1..])
    else if ts[0].typ == Identifier || ts[0].typ == Comma || ts[0].typ == Colon then SkipParams(ts[1..])
    else None
  }

  predicate LookaheadLambda(ts: Tokens) {
    Starts(ts, LParen)
    && var after := SkipParams(ts[1..]);
       after.Some? && (Starts(after.value, Arrow) || Starts(after.value, ArrowFn))
  }

  // ----- expressions -----

  function ParseExpr(ts: Tokens): (r: Result<Expr>)
    ensures r.Parsed? ==> |r.rest| < |ts|
    decreases |ts|, 9
  {
    match Head(ts)
    case IfKeyword => ParseIf(ts)
    case WhileKeyword =>
      (match ParseExpr(ts[1..])
       case Failed => Failed
       case Parsed(cond, rest) =>
         match ParseBlock(rest)
         case Failed => Failed
         case Parsed(body, left) => Parsed(While(cond, body), left))
    case MatchKeyword =>
      (match ParseExpr(ts[1..])
       case Failed => Failed
       case Parsed(scrutinee, rest) =>
         if !Starts(rest, LBrace) then Failed
         else
           match ParseArms(rest[1..])
           case Failed => Failed
           case Parsed(arms, left) => Parsed(Match(scrutinee, arms), left))
    case AsyncKeyword =>
      (match ParseBlock(ts[1..])
       case Failed => Failed
       case Parsed(body, rest) => Parsed(Async(body), rest))
    case AwaitKeyword =>
      (match ParseExpr(ts[1..])
       case Failed => Failed
       case Parsed(inner, rest) => Parsed(Await(inner), rest))
    case Bang =>
      (match ParseExpr(ts[1..])
       case Failed => Failed
       case Parsed(inner, rest) => Parsed(Effect(inner), rest))
    case _ => ParsePipe(ts)
  }

  function ParseIf(ts: Tokens): (r: Result<Expr>)
    requires ts != []
    ensures r.Parsed? ==> |r.rest| < |ts|
    decreases |ts|, 8
  {
    match ParseExpr(ts[1..])
    case Failed => Failed
    case Parsed(cond, rest) =>
      match ParseBlock(rest)
      case Failed => Failed
      case Parsed(yes, left) =>
        if !Starts(left, ElseKeyword) then Parsed(If(cond, yes, None), left)
        else
          match if Starts(left[1..], IfKeyword) then ParseExpr(left[1..]) else ParseBlock(left[1..])
          case Failed => Failed
          case Parsed(no, end) => Parsed(If(cond, yes, Some(no)), end)
  }

  function ParseBlock(ts: Tokens): (r: Result<Expr>)
    ensures r.Parsed? ==> |r.rest| < |ts|
    decreases |ts|, 4
  {
    if !Starts(ts, LBrace) then Failed
    else
      match ParseItems(ts[1..])
      case Failed => Failed
      case Parsed(items, rest) => Parsed(Block(items), rest)
  }

  function SkipSemicolon(ts: Tokens): Tokens {
    if Starts(ts, Semicolon) then ts[1..] else ts
  }

  /** The loop of parse_block_expression, up to and including the closing brace. */
  function ParseItems(ts: Tokens): (r: Result<seq<Expr>>)
    ensures r.Parsed? ==> |r.rest| < |ts|
    decreases |ts|, 10
  {
    if Starts(ts, RBrace) then Parsed([], ts[1..])
    else if Head(ts) == Eof then Failed
    else
      match ParseExpr(ts)
      case Failed => Failed
      case Parsed(item, rest) =>
        match ParseItems(SkipSemicolon(rest))
        case Failed => Failed
        case Parsed(items, left) => Parsed([item] + items, left)
  }

  /** One arm of a match. */
  function ParseArm(ts: Tokens): (r: Result<Arm>)
    ensures r.Parsed? ==> |r.rest| < |ts|
    decreases |ts|, 9
  {
    if !Starts(ts, Identifier) then Failed
    else
      match if Starts(ts[1..], LParen) then ParseParams(ts[2..]) else Parsed([], ts[1..])
      case Failed => Failed
      case Parsed(bindings, rest) =>
        if !Starts(rest, Arrow) then Failed
        else
          match ParseExpr(rest[1..])
          case Failed => Failed
          case Parsed(body, left) => Parsed(Arm(ts[0].lexeme, bindings, body), left)
  }

  /** The loop of parse_match_expr, up to and including the closing brace. */
  function ParseArms(ts: Tokens): (r: Result<seq<Arm>>)
    ensures r.Parsed? ==> |r.rest| < |ts|
    decreases |ts|, 10
  {
    if Starts(ts, RBrace) then Parsed([], ts[1..])
    else if Head(ts) == Eof then Failed
    else
      match ParseArm(ts)
      case Failed => Failed
      case Parsed(arm, rest) =>
        match ParseArms(SkipSemicolon(rest))
        case Failed => Failed
        case Parsed(arms, left) => Parsed([arm] + arms, left)
  }

  function ParsePipe(ts: Tokens): (r: Result<Expr>)
    ensures r.Parsed? ==> |r.rest| < |ts|
    decreases |ts|, 7
  {
    match ParseCall(ts)
    case Failed => Failed
    case Parsed(target, rest) =>
      if !Starts(rest, PipeOperator) then Parsed(target, rest)
      else
        match ParseStages(rest[1..])
        case Failed => Failed
        case Parsed(stages, left) => Parsed(Pipe(target, stages), left)
  }

  function ParseStages(ts: Tokens): (r: Result<seq<Expr>>)
    ensures r.Parsed? ==> |r.rest| < |ts|
    decreases |ts|, 7
  {
    match ParseCall(ts)
    case Failed => Failed
    case Parsed(stage, rest) =>
      if !Starts(rest, PipeOperator) then Parsed([stage], rest)
      else
        match ParseStages(rest[1..])
        case Failed => Failed
        case Parsed(stages, left) => Parsed([stage] + stages, left)
  }

  function ParseCall(ts: Tokens): (r: Result<Expr>)
    ensures r.Parsed? ==> |r.rest| < |ts|
    decreases |ts|, 6
  {
    match ParsePrimary(ts)
    case Failed => Failed
    case Parsed(e, rest) => ParseCalls(e, rest)
  }

  /** The loop of parse_call_expr. */
  function ParseCalls(callee: Expr, ts: Tokens): (r: Result<Expr>)
    ensures r.Parsed? ==> |r.rest| <= |ts|
    decreases |ts|, 1
  {
    if !Starts(ts, LParen) then Parsed(callee, ts)
    else
      match ParseArgs(ts[1..])
      case Failed => Failed
      case Parsed(args, rest) => ParseCalls(Call(callee, args), rest)
  }

  function ParseArgs(ts: Tokens): (r: Result<seq<Arg>>)
    ensures r.Parsed? ==> |r.rest| < |ts|
    decreases |ts|, 12
  {
    if Starts(ts, RParen) then Parsed([], ts[1..]) else ParseSomeArgs(ts)
  }

  function ParseSomeArgs(ts: Tokens): (r: Result<seq<Arg>>)
    ensures r.Parsed? ==> |r.rest| < |ts|
    decreases |ts|, 11
  {
    match ParseArg(ts)
    case Failed => Failed
    case Parsed(arg, rest) =>
      if Starts(rest, Comma) then
        match ParseSomeArgs(rest[1..])
        case Failed => Failed
        case Parsed(args, left) => Parsed([arg] + args, left)
      else if Starts(rest, RParen) then Parsed([arg], rest[1..])
      else Failed
  }

  /** One argument; a name and an equals sign in front make it a named one. */
  function ParseArg(ts: Tokens): (r: Result<Arg>)
    ensures r.Parsed? ==> |r.rest| < |ts|
    decreases |ts|, 10
  {
    var named := Starts(ts, Identifier) && Starts(ts[1..], Equal);
    match ParseExpr(if named then ts[2..] else ts)
    case Failed => Failed
    case Parsed(e, rest) => Parsed(Arg(if named then Some(ts[0].lexeme) else None, e), rest)
  }

  function ParseLambda(ts: Tokens): (r: Result<Expr>)
    requires Starts(ts, LParen)
    ensures r.Parsed? ==> |r.rest| < |ts|
    decreases |ts|, 2
  {
    match ParseParams(ts[1..])
    case Failed => Failed
    case Parsed(params, rest) =>
      if !Starts(rest, Arrow) then Failed
      else
        match ParseExpr(rest[1..])
        case Failed => Failed
        case Parsed(body, left) => Parsed(Lambda(params, body), left)
  }

  function ParseList(ts: Tokens): (r: Result<Expr>)
    requires Starts(ts, LBracket)
    ensures r.Parsed? ==> |r.rest| < |ts|
    decreases |ts|, 2
  {
    if Starts(ts[1..], RBracket) then Parsed(ListLiteral([]), ts[2..])
    else
      match ParseElements(ts[1..])
      case Failed => Failed
      case Parsed(elements, rest) => Parsed(ListLiteral(elements), rest)
  }

  function ParseElements(ts: Tokens): (r: Result<seq<Expr>>)
    ensures r.Parsed? ==> |r.rest| < |ts|
    decreases |ts|, 10
  {
    match ParseExpr(ts)
    case Failed => Failed
    case Parsed(e, rest) =>
      if Starts(rest, Comma) then
        match ParseElements(rest[1..])
        case Failed => Failed
        case Parsed(elements, left) => Parsed([e] + elements, left)
      else if Starts(rest, RBracket) then Parsed([e], rest[1..])
      else Failed
  }

  function ParsePrimary(ts: Tokens): (r: Result<Expr>)
    ensures r.Parsed? ==> |r.rest| < |ts|
    decreases |ts|, 5
  {
    if LookaheadLambda(ts) then ParseLambda(ts)
    else
      match Head(ts)
      case NumberToken => Parsed(Number(ts[0].lexeme), ts[1..])
      case StringToken => Parsed(Str(ts[0].lexeme), ts[1..])
      case TrueKeyword => Parsed(Bool(true), ts[1..])
      case FalseKeyword => Parsed(Bool(false), ts[1..])
      case Identifier => Parsed(Ident(ts[0].lexeme), ts[1..])
      case LParen =>
        (match ParseExpr(ts[1..])
         case Failed => Failed
         case Parsed(e, rest) => if Starts(rest, RParen) then Parsed(Paren(e), rest[1..]) else Failed)
      case LBrace => ParseBlock(ts)
      case LBracket => ParseList(ts)
      case _ => Failed
  }

}
