/** Whole programs: the declaration parsers of src/parser.cpp:428-604 as functions on the tokens
    that are left. */
module Programs {
  import opened Lexer
  import opened Syntax
  import opened Parser

  datatype Variant = Variant(name: string, payload: seq<Param>)

  datatype Declaration =
    | LetDeclaration(name: string, typeName: Option<string>, value: Expr)
    | FunDeclaration(name: string, params: seq<Param>, returnType: Option<string>, body: Expr)
    | SumDeclaration(name: string, variants: seq<Variant>)
    | TupleDeclaration(name: string, fields: seq<Param>)

  datatype Import = Import(path: seq<string>, symbols: seq<string>)

  datatype Program = Program(path: seq<string>, imports: seq<Import>, decls: seq<Declaration>)

  // ----- parsing -----

  function ParsePath(ts: Tokens): (r: Result<seq<string>>)
    ensures r.Parsed? ==> |r.rest| < |ts|
    decreases |ts|
  {
    if !Starts(ts, Identifier) then Failed
    else if !Starts(ts[1..], Dot) then Parsed([ts[0].lexeme], ts[1..])
    else
      match ParsePath(ts[2..])
      case Failed => Failed
      case Parsed(path, rest) => Parsed([ts[0].lexeme] + path, rest)
  }

  /** The symbols of an import, up to and including the closing brace. */
  function ParseSymbols(ts: Tokens): (r: Result<seq<string>>)
    ensures r.Parsed? ==> |r.rest| < |ts|
    decreases |ts|
  {
    if Starts(ts, RBrace) then Parsed([], ts[1..])
    else if !Starts(ts, Identifier) then Failed
    else if Starts(ts[1..], Comma) then
      match ParseSymbols(ts[2..])
      case Failed => Failed
      case Parsed(symbols, rest) => Parsed([ts[0].lexeme] + symbols, rest)
    else if Starts(ts[1..], RBrace) then Parsed([ts[0].lexeme], ts[2..])
    else Failed
  }

  function ParseImport(ts: Tokens): (r: Result<Import>)
    requires Starts(ts, ImportKeyword)
    ensures r.Parsed? ==> |r.rest| < |ts|
  {
    match ParsePath(ts[1..])
    case Failed => Failed
    case Parsed(path, rest) =>
      match if Starts(rest, LBrace) then ParseSymbols(rest[1..]) else Parsed([], rest)
      case Failed => Failed
      case Parsed(symbols, left) => Parsed(Import(path, symbols), left)
  }

  function ParseImports(ts: Tokens): (r: Result<seq<Import>>)
    ensures r.Parsed? ==> |r.rest| <= |ts|
    decreases |ts|
  {
    if !Starts(ts, ImportKeyword) then Parsed([], ts)
    else
      match ParseImport(ts)
      case Failed => Failed
      case Parsed(decl, rest) =>
        match ParseImports(rest)
        case Failed => Failed
        case Parsed(imports, left) => Parsed([decl] + imports, left)
  }

  /** An optional type annotation and the equals sign behind it. */
  function ParseAnnotation(ts: Tokens): (r: Result<Option<string>>)
    ensures r.Parsed? ==> |r.rest| < |ts|
  {
    if Starts(ts, Colon) then
      if Starts(ts[1..], Identifier) && Starts(ts[2..], Equal) then Parsed(Some(ts[1].lexeme), ts[3..]) else Failed
    else if Starts(ts, Equal) then Parsed(None, ts[1..])
    else Failed
  }

  function ParseVariant(ts: Tokens): (r: Result<Variant>)
    ensures r.Parsed? ==> |r.rest| < |ts|
  {
    if !Starts(ts, Identifier) then Failed
    else if !Starts(ts[1..], LParen) then Parsed(Variant(ts[0].lexeme, []), ts[1..])
    else
      match ParseParams(ts[2..])
      case Failed => Failed
      case Parsed(payload, rest) => Parsed(Variant(ts[0].lexeme, payload), rest)
  }

  function ParseVariants(ts: Tokens): (r: Result<seq<Variant>>)
    ensures r.Parsed? ==> |r.rest| < |ts|
    decreases |ts|
  {
    match ParseVariant(ts)
    case Failed => Failed
    case Parsed(variant, rest) =>
      if !Starts(rest, Bar) then Parsed([variant], rest)
      else
        match ParseVariants(rest[1..])
        case Failed => Failed
        case Parsed(variants, left) => Parsed([variant] + variants, left)
  }

  function ParseLet(ts: Tokens): (r: Result<Declaration>)
    requires ts != []
    ensures r.Parsed? ==> |r.rest| < |ts|
  {
    if !Starts(ts[1..], Identifier) then Failed
    else
      match ParseAnnotation(ts[2..])
      case Failed => Failed
      case Parsed(typeName, rest) =>
        match ParseExpr(rest)
        case Failed => Failed
        case Parsed(value, left) => Parsed(LetDeclaration(ts[1].lexeme, typeName, value), left)
  }

  function ParseFun(ts: Tokens): (r: Result<Declaration>)
    requires ts != []
    ensures r.Parsed? ==> |r.rest| < |ts|
  {
    if !Starts(ts[1..], Identifier) || !Starts(ts[2..], LParen) then Failed
    else ParseFunRest(ts[1].lexeme, ts[3..])
  }

  /** What follows the opening parenthesis of a function. */
  function ParseFunRest(name: string, ts: Tokens): (r: Result<Declaration>)
    ensures r.Parsed? ==> |r.rest| < |ts|
  {
    match ParseParams(ts)
    case Failed => Failed
    case Parsed(params, rest) =>
      match ParseAnnotation(rest)
      case Failed => Failed
      case Parsed(returnType, left) =>
        match ParseExpr(left)
        case Failed => Failed
        case Parsed(body, end) => Parsed(FunDeclaration(name, params, returnType, body), end)
  }

  function ParseType(ts: Tokens): (r: Result<Declaration>)
    requires ts != []
    ensures r.Parsed? ==> |r.rest| < |ts|
  {
    if !Starts(ts[1..], Identifier) then Failed else ParseTypeBody(ts[1].lexeme, ts[2..])
  }

  /** What follows the name of a type: variants behind an equals sign, or fields. */
  function ParseTypeBody(name: string, ts: Tokens): (r: Result<Declaration>)
    ensures r.Parsed? ==> |r.rest| < |ts|
  {
    if Starts(ts, Equal) then
      match ParseVariants(ts[1..])
      case Failed => Failed
      case Parsed(variants, rest) => Parsed(SumDeclaration(name, variants), rest)
    else if Starts(ts, LParen) then
      match ParseParams(ts[1..])
      case Failed => Failed
      case Parsed(fields, rest) => Parsed(TupleDeclaration(name, fields), rest)
    else Failed
  }

  function ParseDecl(ts: Tokens): (r: Result<Declaration>)
    ensures r.Parsed? ==> |r.rest| < |ts|
  {
    match Head(ts)
    case TypeKeyword => ParseType(ts)
    case FunKeyword => ParseFun(ts)
    case LetKeyword => ParseLet(ts)
    case _ => Failed
  }

  /** Declarations up to the end of the tokens. */
  function ParseDecls(ts: Tokens): (r: Result<seq<Declaration>>)
    decreases |ts|
  {
    if Head(ts) == Eof then Parsed([], ts)
    else
      match ParseDecl(ts)
      case Failed => Failed
      case Parsed(decl, rest) =>
        match ParseDecls(rest)
        case Failed => Failed
        case Parsed(decls, left) => Parsed([decl] + decls, left)
  }

  /** nova_parser_parse */
  function ParseProgram(ts: Tokens): Result<Program> {
    if !Starts(ts, ModuleKeyword) then Failed
    else
      match ParsePath(ts[1..])
      case Failed => Failed
      case Parsed(path, rest) =>
        match ParseImports(rest)
        case Failed => Failed
        case Parsed(imports, left) =>
          match ParseDecls(left)
          case Failed => Failed
          case Parsed(decls, end) => Parsed(Program(path, imports, decls), end)
  }
}
