/** NovaParser (src/parser.cpp): a cursor over the token array, moved on by every routine. Each
    routine returns what the function of the same grammar rule describes, or reports an error
    exactly where that function fails; a routine that has reported returns None, where the
    original goes on to look for more errors. */
module ParserRun {
  import opened Lexer
  import opened Syntax
  import opened Parser
  import opened Programs

  /** `xs` have been read already; the rest of the list is what `r` says. */
  function Prefixed<T>(xs: seq<T>, r: Result<seq<T>>): Result<seq<T>> {
    match r
    case Failed => Failed
    case Parsed(ys, rest) => Parsed(xs + ys, rest)
  }

  lemma NothingPrefixed<T>(r: Result<seq<T>>)
    ensures Prefixed([], r) == r
  {
    if r.Parsed? { assert [] + r.value == r.value; }
  }

  lemma PrefixedTwice<T>(xs: seq<T>, x: T, r: Result<seq<T>>)
    ensures Prefixed(xs, Prefixed([x], r)) == Prefixed(xs + [x], r)
  {
    if r.Parsed? { assert xs + ([x] + r.value) == xs + [x] + r.value; }
  }

  // ----- one turn of each loop -----

  /** A list goes on behind a comma and ends at `close`. */
  function Listed<T>(xs: seq<T>, rest: Tokens, close: TokenType, more: Tokens -> Result<seq<T>>): Result<seq<T>> {
    if Starts(rest, Comma) then Prefixed(xs, more(rest[1..]))
    else if Starts(rest, close) then Parsed(xs, rest[1..])
    else Failed
  }

  lemma ParamsStep(xs: seq<Param>, ts: Tokens)
    ensures Prefixed(xs, ParseSomeParams(ts)) ==
            match ParseParam(ts)
            case Failed => Failed
            case Parsed(x, rest) => Listed(xs + [x], rest, RParen, ParseSomeParams)
  {
    hide ParseParam;
    var r := ParseParam(ts);
    if r.Parsed? && Starts(r.rest, Comma) { PrefixedTwice(xs, r.value, ParseSomeParams(r.rest[1..])); }
  }

  lemma ArgsStep(xs: seq<Arg>, ts: Tokens)
    ensures Prefixed(xs, ParseSomeArgs(ts)) ==
            match ParseArg(ts)
            case Failed => Failed
            case Parsed(x, rest) => Listed(xs + [x], rest, RParen, ParseSomeArgs)
  {
    hide ParseArg;
    var r := ParseArg(ts);
    if r.Parsed? && Starts(r.rest, Comma) { PrefixedTwice(xs, r.value, ParseSomeArgs(r.rest[1..])); }
  }

  lemma ElementsStep(xs: seq<Expr>, ts: Tokens)
    ensures Prefixed(xs, ParseElements(ts)) ==
            match ParseExpr(ts)
            case Failed => Failed
            case Parsed(x, rest) => Listed(xs + [x], rest, RBracket, ParseElements)
  {
    hide ParseExpr;
    var r := ParseExpr(ts);
    if r.Parsed? && Starts(r.rest, Comma) { PrefixedTwice(xs, r.value, ParseElements(r.rest[1..])); }
  }

  lemma StagesStep(xs: seq<Expr>, ts: Tokens)
    ensures Prefixed(xs, ParseStages(ts)) ==
            match ParseCall(ts)
            case Failed => Failed
            case Parsed(x, rest) =>
              if Starts(rest, PipeOperator) then Prefixed(xs + [x], ParseStages(rest[1..])) else Parsed(xs + [x], rest)
  {
    hide ParseCall;
    var r := ParseCall(ts);
    if r.Parsed? && Starts(r.rest, PipeOperator) { PrefixedTwice(xs, r.value, ParseStages(r.rest[1..])); }
  }

  lemma ItemsStep(xs: seq<Expr>, ts: Tokens)
    requires !Starts(ts, RBrace) && Head(ts) != Eof
    ensures Prefixed(xs, ParseItems(ts)) ==
            match ParseExpr(ts)
            case Failed => Failed
            case Parsed(x, rest) => Prefixed(xs + [x], ParseItems(SkipSemicolon(rest)))
  {
    hide ParseExpr;
    var r := ParseExpr(ts);
    if r.Parsed? { PrefixedTwice(xs, r.value, ParseItems(SkipSemicolon(r.rest))); }
  }

  lemma ArmsStep(xs: seq<Arm>, ts: Tokens)
    requires !Starts(ts, RBrace) && Head(ts) != Eof
    ensures Prefixed(xs, ParseArms(ts)) ==
            match ParseArm(ts)
            case Failed => Failed
            case Parsed(x, rest) => Prefixed(xs + [x], ParseArms(SkipSemicolon(rest)))
  {
    hide ParseArm;
    var r := ParseArm(ts);
    if r.Parsed? { PrefixedTwice(xs, r.value, ParseArms(SkipSemicolon(r.rest))); }
  }

  /** Where the loops over items and arms stop. */
  lemma BraceStops(ts: Tokens, items: seq<Expr>, arms: seq<Arm>)
    requires Starts(ts, RBrace) || Head(ts) == Eof
    ensures Prefixed(items, ParseItems(ts)) == if Starts(ts, RBrace) then Parsed(items, ts[1..]) else Failed
    ensures Prefixed(arms, ParseArms(ts)) == if Starts(ts, RBrace) then Parsed(arms, ts[1..]) else Failed
  {
    assert items + [] == items && arms + [] == arms;
  }

  lemma SymbolsStep(xs: seq<string>, ts: Tokens)
    requires Starts(ts, Identifier)
    ensures Prefixed(xs, ParseSymbols(ts)) == Listed(xs + [ts[0].lexeme], ts[1..], RBrace, ParseSymbols)
  {
    assert |ts| > 1 ==> ts[1..][1..] == ts[2..];
    if Starts(ts[1..], Comma) { PrefixedTwice(xs, ts[0].lexeme, ParseSymbols(ts[2..])); }
  }

  /** Where the loop over symbols stops without a comma. */
  lemma SymbolsStop(xs: seq<string>, ts: Tokens)
    requires !Starts(ts, Identifier)
    ensures Prefixed(xs, ParseSymbols(ts)) == if Starts(ts, RBrace) then Parsed(xs, ts[1..]) else Failed
  {
    assert xs + [] == xs;
  }

  lemma PathStep(xs: seq<string>, ts: Tokens)
    ensures Prefixed(xs, ParsePath(ts)) ==
            if !Starts(ts, Identifier) then Failed
            else if Starts(ts[1..], Dot) then Prefixed(xs + [ts[0].lexeme], ParsePath(ts[1..][1..]))
            else Parsed(xs + [ts[0].lexeme], ts[1..])
  {
    if Starts(ts, Identifier) && Starts(ts[1..], Dot) {
      assert ts[1..][1..] == ts[2..];
      PrefixedTwice(xs, ts[0].lexeme, ParsePath(ts[2..]));
    }
  }

  lemma VariantsStep(xs: seq<Variant>, ts: Tokens)
    ensures Prefixed(xs, ParseVariants(ts)) ==
            match ParseVariant(ts)
            case Failed => Failed
            case Parsed(x, rest) =>
              if Starts(rest, Bar) then Prefixed(xs + [x], ParseVariants(rest[1..])) else Parsed(xs + [x], rest)
  {
    hide ParseVariant;
    var r := ParseVariant(ts);
    if r.Parsed? && Starts(r.rest, Bar) { PrefixedTwice(xs, r.value, ParseVariants(r.rest[1..])); }
  }

  lemma ImportsStep(xs: seq<Import>, ts: Tokens)
    ensures Prefixed(xs, ParseImports(ts)) ==
            if !Starts(ts, ImportKeyword) then Parsed(xs, ts)
            else
              match ParseImport(ts)
              case Failed => Failed
              case Parsed(x, rest) => Prefixed(xs + [x], ParseImports(rest))
  {
    hide ParseImport;
    if Starts(ts, ImportKeyword) {
      var r := ParseImport(ts);
      if r.Parsed? { PrefixedTwice(xs, r.value, ParseImports(r.rest)); }
    } else {
      assert xs + [] == xs;
    }
  }

  lemma DeclsStep(xs: seq<Declaration>, ts: Tokens)
    ensures Prefixed(xs, ParseDecls(ts)) ==
            if Head(ts) == Eof then Parsed(xs, ts)
            else
              match ParseDecl(ts)
              case Failed => Failed
              case Parsed(x, rest) => Prefixed(xs + [x], ParseDecls(rest))
  {
    hide ParseDecl;
    if Head(ts) != Eof {
      var r := ParseDecl(ts);
      if r.Parsed? { PrefixedTwice(xs, r.value, ParseDecls(r.rest)); }
    } else {
      assert xs + [] == xs;
    }
  }

  lemma NothingToSkip()
    ensures SkipParams([]) == None
  {
  }

  lemma SkipOne(ts: Tokens, i: nat)
    requires i < |ts|
    ensures SkipParams(ts[i..]) ==
      if ts[i].typ == RParen then Some(ts[i + 1..])
      else if ts[i].typ == Identifier || ts[i].typ == Comma || ts[i].typ == Colon then SkipParams(ts[i + 1..])
      else None
  {
    assert ts[i..][0] == ts[i] && ts[i..][1..] == ts[i + 1..];
  }

  class NovaParser {
    const tokens: Tokens
    var current: nat
    var hadError: bool

    ghost predicate Valid()
      reads this
    {
      current <= |tokens|
    }

    constructor (tokens: Tokens)
      ensures Valid() && this.tokens == tokens && current == 0 && !hadError
    {
      this.tokens, current, hadError := tokens, 0, false;
    }

    ghost function Left(): Tokens
      reads this
      requires Valid()
    {
      tokens[current..]
    }

    /** What a routine returned is what its rule says about the tokens it found. */
    ghost predicate Agrees<T>(r: Option<T>, spec: Result<T>)
      reads this
    {
      Valid() && if r.Some? then !hadError && spec == Parsed(r.value, Left()) else hadError && spec == Failed
    }

    function PeekType(): TokenType
      reads this
      requires Valid()
      ensures PeekType() == Head(Left())
    {
      if current >= |tokens| then Eof else tokens[current].typ
    }

    predicate Check(typ: TokenType)
      reads this
      requires Valid()
    {
      PeekType() == typ
    }

    method Advance() returns (token: Token)
      requires Valid() && PeekType() != Eof
      modifies `current
      ensures Valid() && current == old(current) + 1 && token == tokens[old(current)] && Left() == old(Left())[1..]
    {
      current := current + 1;
      token := tokens[current - 1];
    }

    method Match(typ: TokenType) returns (matched: bool)
      requires Valid() && typ != Eof
      modifies `current
      ensures Valid() && matched == Starts(old(Left()), typ)
      ensures if matched then current == old(current) + 1 && Left() == old(Left())[1..] else current == old(current)
    {
      if !Check(typ) { return false; }
      var token := Advance();
      return true;
    }

    method Report()
      modifies `hadError
      ensures hadError
    {
      hadError := true;
    }

    method Consume(typ: TokenType) returns (token: Option<Token>)
      requires Valid() && typ != Eof && !hadError
      modifies this
      ensures Valid() && hadError == token.None? && token.Some? == Starts(old(Left()), typ)
      ensures token.Some? ==> token.value == old(Left())[0] && current == old(current) + 1 && Left() == old(Left())[1..]
      ensures token.None? ==> current == old(current)
    {
      if Check(typ) {
        var found := Advance();
        return Some(found);
      }
      Report();
      return None;
    }

    // ----- parameters -----

    method Param() returns (param: Option<Param>)
      requires Valid() && !hadError
      modifies this
      ensures Agrees(param, ParseParam(old(Left())))
    {
      var name := Consume(Identifier);
      if name.None? { return None; }
      var typed := Match(Colon);
      if !typed { return Some(Syntax.Param(name.value.lexeme, None)); }
      var typeName := Consume(Identifier);
      if typeName.None? { return None; }
      return Some(Syntax.Param(name.value.lexeme, Some(typeName.value.lexeme)));
    }

    /** parse_param_list; the terminator is always a closing parenthesis. */
    method ParamList() returns (params: Option<seq<Param>>)
      requires Valid() && !hadError
      modifies this
      ensures Agrees(params, ParseParams(old(Left())))
    {
      hide Prefixed, ParseSomeParams, ParseParam;
      var list: seq<Param> := [];
      var closed := Match(RParen);
      if closed { return Some([]); }
      var more := true;
      NothingPrefixed(ParseSomeParams(Left()));
      while more
        invariant Valid() && !hadError
        invariant more ==> Prefixed(list, ParseSomeParams(Left())) == ParseParams(old(Left()))
        invariant !more ==> ParseParams(old(Left())) ==
                            if Starts(Left(), RParen) then Parsed(list, Left()[1..]) else Failed
        decreases |tokens| - current, more
      {
        ParamsStep(list, Left());
        var param := Param();
        if param.None? { return None; }
        list := list + [param.value];
        more := Match(Comma);
      }
      var end := Consume(RParen);
      if end.None? { return None; }
      return Some(list);
    }

    /** lookahead_lambda, which only reads. */
    method LooksLikeLambda() returns (lambda: bool)
      requires Valid()
      ensures lambda == LookaheadLambda(Left())
    {
      hide SkipParams;
      if !Check(LParen) { return false; }
      var index := current + 1;
      var depth := 1;
      ghost var after := SkipParams(tokens[index..]);
      assert Left()[1..] == tokens[index..];
      while index < |tokens| && depth > 0
        invariant index <= |tokens| && depth == 1 && after == SkipParams(tokens[index..])
        decreases |tokens| - index
      {
        var typ := tokens[index].typ;
        SkipOne(tokens, index);
        if typ == LParen { return false; }
        if typ == RParen {
          depth := depth - 1;
          index := index + 1;
          break;
        }
        if typ == Identifier || typ == Comma || typ == Colon {
          index := index + 1;
          continue;
        }
        return false;
      }
      if depth != 0 {
        NothingToSkip();
        assert tokens[index..] == [];
        return false;
      }
      if index >= |tokens| { return false; }
      var next := tokens[index].typ;
      return next == Arrow || next == ArrowFn;
    }

    // ----- expressions -----

    method Expression() returns (e: Option<Expr>)
      requires Valid() && !hadError
      modifies this
      ensures Agrees(e, ParseExpr(old(Left())))
      decreases |tokens| - current, 9
    {
      var inner;
      match PeekType() {
        case IfKeyword => e := IfExpression();
        case WhileKeyword => e := WhileExpression();
        case MatchKeyword => e := MatchExpression();
        case AsyncKeyword =>
          var start := Advance();
          inner := BlockExpression();
          e := if inner.Some? then Some(Async(inner.value)) else None;
        case AwaitKeyword =>
          var start := Advance();
          inner := Expression();
          e := if inner.Some? then Some(Await(inner.value)) else None;
        case Bang =>
          var start := Advance();
          inner := Expression();
          e := if inner.Some? then Some(Effect(inner.value)) else None;
        case _ => e := PipeExpression();
      }
    }

    method IfExpression() returns (e: Option<Expr>)
      requires Valid() && !hadError && Starts(Left(), IfKeyword)
      modifies this
      ensures Agrees(e, ParseIf(old(Left())))
      decreases |tokens| - current, 8
    {
      var start := Advance();
      var cond := Expression();
      if cond.None? { return None; }
      var yes := BlockExpression();
      if yes.None? { return None; }
      var otherwise := Match(ElseKeyword);
      if !otherwise { return Some(If(cond.value, yes.value, None)); }
      var no;
      if Check(IfKeyword) {
        no := Expression();
      } else {
        no := BlockExpression();
      }
      if no.None? { return None; }
      return Some(If(cond.value, yes.value, Some(no.value)));
    }

    method WhileExpression() returns (e: Option<Expr>)
      requires Valid() && !hadError && Starts(Left(), WhileKeyword)
      modifies this
      ensures Agrees(e, ParseExpr(old(Left())))
      decreases |tokens| - current, 8
    {
      var start := Advance();
      var cond := Expression();
      if cond.None? { return None; }
      var body := BlockExpression();
      if body.None? { return None; }
      return Some(While(cond.value, body.value));
    }

    method MatchExpression() returns (e: Option<Expr>)
      requires Valid() && !hadError && Starts(Left(), MatchKeyword)
      modifies this
      ensures Agrees(e, ParseExpr(old(Left())))
      decreases |tokens| - current, 8
    {
      var start := Advance();
      var scrutinee := Expression();
      if scrutinee.None? { return None; }
      var open := Consume(LBrace);
      if open.None? { return None; }
      var arms := MatchArms();
      if arms.None? { return None; }
      return Some(Expr.Match(scrutinee.value, arms.value));
    }

    /** The loop of parse_match_expr and the closing brace. */
    method MatchArms() returns (arms: Option<seq<Arm>>)
      requires Valid() && !hadError
      modifies this
      ensures Agrees(arms, ParseArms(old(Left())))
      decreases |tokens| - current, 10
    {
      hide Prefixed, ParseArms, ParseArm;
      var list: seq<Arm> := [];
      NothingPrefixed(ParseArms(Left()));
      while !Check(RBrace) && PeekType() != Eof
        invariant Valid() && !hadError && old(current) <= current
        invariant Prefixed(list, ParseArms(Left())) == ParseArms(old(Left()))
        decreases |tokens| - current
      {
        ArmsStep(list, Left());
        var arm := MatchArm();
        if arm.None? { return None; }
        list := list + [arm.value];
        var separated := Match(Semicolon);
      }
      BraceStops(Left(), [], list);
      var close := Consume(RBrace);
      if close.None? { return None; }
      return Some(list);
    }

    method MatchArm() returns (arm: Option<Arm>)
      requires Valid() && !hadError
      modifies this
      ensures Agrees(arm, ParseArm(old(Left())))
      decreases |tokens| - current, 9
    {
      hide ParseParams, ParseExpr;
      var name := Consume(Identifier);
      if name.None? { return None; }
      var bindings: seq<Param> := [];
      var open := Match(LParen);
      if open {
        var params := ParamList();
        if params.None? { return None; }
        bindings := params.value;
      }
      var arrow := Consume(Arrow);
      if arrow.None? { return None; }
      var body := Expression();
      if body.None? { return None; }
      return Some(Arm(name.value.lexeme, bindings, body.value));
    }

    method BlockExpression() returns (e: Option<Expr>)
      requires Valid() && !hadError
      modifies this
      ensures Agrees(e, ParseBlock(old(Left())))
      decreases |tokens| - current, 4
    {
      hide ParseItems;
      var start := Consume(LBrace);
      if start.None? { return None; }
      var items := BlockItems();
      if items.None? { return None; }
      return Some(Block(items.value));
    }

    /** The loop of parse_block_expression and the closing brace. */
    method BlockItems() returns (items: Option<seq<Expr>>)
      requires Valid() && !hadError
      modifies this
      ensures Agrees(items, ParseItems(old(Left())))
      decreases |tokens| - current, 10
    {
      hide Prefixed, ParseItems, ParseExpr;
      var list: seq<Expr> := [];
      NothingPrefixed(ParseItems(Left()));
      while !Check(RBrace) && PeekType() != Eof
        invariant Valid() && !hadError && old(current) <= current
        invariant Prefixed(list, ParseItems(Left())) == ParseItems(old(Left()))
        decreases |tokens| - current
      {
        ItemsStep(list, Left());
        var item := Expression();
        if item.None? { return None; }
        list := list + [item.value];
        var separated := Match(Semicolon);
        if !separated {
          if Check(RBrace) { break; }
        }
      }
      BraceStops(Left(), list, []);
      var close := Consume(RBrace);
      if close.None? { return None; }
      return Some(list);
    }

    method PipeExpression() returns (e: Option<Expr>)
      requires Valid() && !hadError
      modifies this
      ensures Agrees(e, ParsePipe(old(Left())))
      decreases |tokens| - current, 7
    {
      hide Prefixed, ParseStages, ParseCall;
      var target := CallExpression();
      if target.None? { return None; }
      var piped := Match(PipeOperator);
      if !piped { return target; }
      var stages: seq<Expr> := [];
      ghost var first := Left();
      if piped { NothingPrefixed(ParseStages(first)); }
      while piped
        invariant Valid() && !hadError && old(current) < current
        invariant piped ==> Prefixed(stages, ParseStages(Left())) == ParseStages(first)
        invariant !piped ==> ParseStages(first) == Parsed(stages, Left())
        decreases |tokens| - current, piped
      {
        StagesStep(stages, Left());
        var stage := CallExpression();
        if stage.None? { return None; }
        stages := stages + [stage.value];
        piped := Match(PipeOperator);
      }
      return Some(Pipe(target.value, stages));
    }

    method CallExpression() returns (e: Option<Expr>)
      requires Valid() && !hadError
      modifies this
      ensures Agrees(e, ParseCall(old(Left())))
      decreases |tokens| - current, 6
    {
      hide ParsePrimary, ParseArgs;
      e := Primary();
      if e.None? { return; }
      var callee := e.value;
      while true
        invariant Valid() && !hadError && old(current) < current
        invariant ParseCalls(callee, Left()) == ParseCall(old(Left()))
        decreases |tokens| - current
      {
        var open := Match(LParen);
        if !open { break; }
        var args := ArgumentList();
        if args.None? { return None; }
        callee := Call(callee, args.value);
      }
      return Some(callee);
    }

    method ArgumentList() returns (args: Option<seq<Arg>>)
      requires Valid() && !hadError
      modifies this
      ensures Agrees(args, ParseArgs(old(Left())))
      decreases |tokens| - current, 12
    {
      hide Prefixed, ParseSomeArgs, ParseArg;
      var closed := Match(RParen);
      if closed { return Some([]); }
      var list: seq<Arg> := [];
      var more := true;
      NothingPrefixed(ParseSomeArgs(Left()));
      while more
        invariant Valid() && !hadError && old(current) <= current
        invariant more ==> Prefixed(list, ParseSomeArgs(Left())) == ParseArgs(old(Left()))
        invariant !more ==> ParseArgs(old(Left())) ==
                            if Starts(Left(), RParen) then Parsed(list, Left()[1..]) else Failed
        decreases |tokens| - current, more
      {
        ArgsStep(list, Left());
        var arg := Argument();
        if arg.None? { return None; }
        list := list + [arg.value];
        more := Match(Comma);
      }
      var end := Consume(RParen);
      if end.None? { return None; }
      return Some(list);
    }

    method Argument() returns (arg: Option<Arg>)
      requires Valid() && !hadError
      modifies this
      ensures Agrees(arg, ParseArg(old(Left())))
      decreases |tokens| - current, 10
    {
      var argName := None;
      if Check(Identifier) {
        var potential := tokens[current];
        if current + 1 < |tokens| && tokens[current + 1].typ == Equal {
          var argLabel := Advance();
          var equal := Consume(Equal);
          argName := Some(potential.lexeme);
        }
      }
      var value := Expression();
      if value.None? { return None; }
      return Some(Arg(argName, value.value));
    }

    method Lambda() returns (e: Option<Expr>)
      requires Valid() && !hadError && Starts(Left(), LParen)
      modifies this
      ensures Agrees(e, ParseLambda(old(Left())))
      decreases |tokens| - current, 2
    {
      var start := Consume(LParen);
      var params := ParamList();
      if params.None? { return None; }
      var arrow := Consume(Arrow);
      if arrow.None? { return None; }
      var body := Expression();
      if body.None? { return None; }
      return Some(Expr.Lambda(params.value, body.value));
    }

    method ListExpression() returns (e: Option<Expr>)
      requires Valid() && !hadError && Starts(Left(), LBracket)
      modifies this
      ensures Agrees(e, ParseList(old(Left())))
      decreases |tokens| - current, 2
    {
      hide Prefixed, ParseElements, ParseExpr;
      var start := Consume(LBracket);
      var elements: seq<Expr> := [];
      var closed := Match(RBracket);
      if closed { return Some(ListLiteral([])); }
      ghost var first := Left();
      var more := true;
      NothingPrefixed(ParseElements(first));
      while more
        invariant Valid() && !hadError && old(current) < current
        invariant more ==> Prefixed(elements, ParseElements(Left())) == ParseElements(first)
        invariant !more ==> ParseElements(first) ==
                            if Starts(Left(), RBracket) then Parsed(elements, Left()[1..]) else Failed
        decreases |tokens| - current, more
      {
        ElementsStep(elements, Left());
        var item := Expression();
        if item.None? { return None; }
        elements := elements + [item.value];
        more := Match(Comma);
      }
      var end := Consume(RBracket);
      if end.None? { return None; }
      return Some(ListLiteral(elements));
    }

    /** parse_primary. At the end of the tokens the original reads the token before it again, which
        is an error, or never ends behind an opening parenthesis or bracket; here it is an error. */
    method Primary() returns (e: Option<Expr>)
      requires Valid() && !hadError
      modifies this
      ensures Agrees(e, ParsePrimary(old(Left())))
      decreases |tokens| - current, 5
    {
      hide ParseExpr, ParseBlock, ParseList, ParseLambda, SkipParams;
      if Check(LParen) {
        var lambda := LooksLikeLambda();
        if lambda {
          e := Lambda();
          return;
        }
      }
      if PeekType() == Eof {
        Report();
        return None;
      }
      var token := Advance();
      var expected := true;
      e := None;
      match token.typ {
        case NumberToken => e := Some(Number(token.lexeme));
        case StringToken => e := Some(Str(token.lexeme));
        case TrueKeyword => e := Some(Bool(true));
        case FalseKeyword => e := Some(Bool(false));
        case Identifier => e := Some(Ident(token.lexeme));
        case LParen =>
          var inner := Expression();
          if inner.None? { return None; }
          var close := Consume(RParen);
          if close.None? { return None; }
          e := Some(Paren(inner.value));
        case LBrace =>
          current := current - 1;
          e := BlockExpression();
        case LBracket =>
          current := current - 1;
          e := ListExpression();
        case _ => expected := false;
      }
      if !expected {
        Report();
        e := None;
      }
    }

    // ----- declarations -----

    method ModulePath() returns (path: Option<seq<string>>)
      requires Valid() && !hadError
      modifies this
      ensures Agrees(path, ParsePath(old(Left())))
    {
      hide Prefixed, ParsePath;
      var list: seq<string> := [];
      NothingPrefixed(ParsePath(Left()));
      var more := true;
      while more
        invariant Valid() && !hadError
        invariant more ==> Prefixed(list, ParsePath(Left())) == ParsePath(old(Left()))
        invariant !more ==> ParsePath(old(Left())) == Parsed(list, Left())
        decreases |tokens| - current, more
      {
        PathStep(list, Left());
        var segment := Consume(Identifier);
        if segment.None? { return None; }
        list := list + [segment.value.lexeme];
        more := Match(Dot);
      }
      return Some(list);
    }

    /** The symbols of an import, behind the opening brace. */
    method ImportSymbols() returns (symbols: Option<seq<string>>)
      requires Valid() && !hadError
      modifies this
      ensures Agrees(symbols, ParseSymbols(old(Left())))
    {
      hide Prefixed, ParseSymbols;
      var list: seq<string> := [];
      NothingPrefixed(ParseSymbols(Left()));
      var more := true;
      while more && !Check(RBrace) && PeekType() != Eof
        invariant Valid() && !hadError
        invariant more ==> Prefixed(list, ParseSymbols(Left())) == ParseSymbols(old(Left()))
        invariant !more ==> ParseSymbols(old(Left())) ==
                            if Starts(Left(), RBrace) then Parsed(list, Left()[1..]) else Failed
        decreases |tokens| - current, more
      {
        if Check(Identifier) { SymbolsStep(list, Left()); } else { SymbolsStop(list, Left()); }
        var symbol := Consume(Identifier);
        if symbol.None? { return None; }
        list := list + [symbol.value.lexeme];
        more := Match(Comma);
      }
      if more { SymbolsStop(list, Left()); }
      var close := Consume(RBrace);
      if close.None? { return None; }
      return Some(list);
    }

    method ImportDecl() returns (decl: Option<Import>)
      requires Valid() && !hadError && Starts(Left(), ImportKeyword)
      modifies this
      ensures Agrees(decl, ParseImport(old(Left())))
    {
      hide ParsePath, ParseSymbols;
      var keyword := Consume(ImportKeyword);
      var path := ModulePath();
      if path.None? { return None; }
      var open := Match(LBrace);
      if !open { return Some(Import(path.value, [])); }
      var symbols := ImportSymbols();
      if symbols.None? { return None; }
      return Some(Import(path.value, symbols.value));
    }

    /** The optional annotation of let and fun, and the equals sign. */
    method Annotation() returns (typeName: Option<Option<string>>)
      requires Valid() && !hadError
      modifies this
      ensures Agrees(typeName, ParseAnnotation(old(Left())))
    {
      ghost var ts := Left();
      assert |ts| > 1 ==> ts[1..][0] == ts[1] && ts[1..][1..] == ts[2..];
      assert |ts| > 2 ==> ts[2..][1..] == ts[3..];
      var name: Option<string> := None;
      var typed := Match(Colon);
      if typed {
        var token := Consume(Identifier);
        if token.None? { return None; }
        name := Some(token.value.lexeme);
      }
      var equal := Consume(Equal);
      if equal.None? { return None; }
      return Some(name);
    }

    method VariantDecl() returns (variant: Option<Variant>)
      requires Valid() && !hadError
      modifies this
      ensures Agrees(variant, ParseVariant(old(Left())))
    {
      hide ParseParams;
      var name := Consume(Identifier);
      if name.None? { return None; }
      var open := Match(LParen);
      if !open { return Some(Variant(name.value.lexeme, [])); }
      var payload := ParamList();
      if payload.None? { return None; }
      return Some(Variant(name.value.lexeme, payload.value));
    }

    method VariantList() returns (variants: Option<seq<Variant>>)
      requires Valid() && !hadError
      modifies this
      ensures Agrees(variants, ParseVariants(old(Left())))
    {
      hide Prefixed, ParseVariants, ParseVariant;
      var list: seq<Variant> := [];
      NothingPrefixed(ParseVariants(Left()));
      var more := true;
      while more
        invariant Valid() && !hadError
        invariant more ==> Prefixed(list, ParseVariants(Left())) == ParseVariants(old(Left()))
        invariant !more ==> ParseVariants(old(Left())) == Parsed(list, Left())
        decreases |tokens| - current, more
      {
        VariantsStep(list, Left());
        var variant := VariantDecl();
        if variant.None? { return None; }
        list := list + [variant.value];
        more := Match(Bar);
      }
      return Some(list);
    }

    method LetDecl() returns (decl: Option<Declaration>)
      requires Valid() && !hadError && Starts(Left(), LetKeyword)
      modifies this
      ensures Agrees(decl, ParseLet(old(Left())))
    {
      hide ParseExpr, ParseAnnotation;
      var keyword := Consume(LetKeyword);
      var name := Consume(Identifier);
      if name.None? { return None; }
      var typeName := Annotation();
      if typeName.None? { return None; }
      var value := Expression();
      if value.None? { return None; }
      return Some(LetDeclaration(name.value.lexeme, typeName.value, value.value));
    }

    method FunDecl() returns (decl: Option<Declaration>)
      requires Valid() && !hadError && Starts(Left(), FunKeyword)
      modifies this
      ensures Agrees(decl, ParseFun(old(Left())))
    {
      hide ParseFunRest;
      ghost var ts := Left();
      assert |ts| > 2 ==> ts[2..][1..] == ts[3..];
      var keyword := Consume(FunKeyword);
      var name := Consume(Identifier);
      if name.None? { return None; }
      var open := Consume(LParen);
      if open.None? { return None; }
      decl := FunRest(name.value.lexeme);
    }

    method FunRest(name: string) returns (decl: Option<Declaration>)
      requires Valid() && !hadError
      modifies this
      ensures Agrees(decl, ParseFunRest(name, old(Left())))
    {
      hide ParseExpr, ParseAnnotation, ParseParams;
      var params := ParamList();
      if params.None? { return None; }
      var returnType := Annotation();
      if returnType.None? { return None; }
      var body := Expression();
      if body.None? { return None; }
      return Some(FunDeclaration(name, params.value, returnType.value, body.value));
    }

    method TypeDecl() returns (decl: Option<Declaration>)
      requires Valid() && !hadError && Starts(Left(), TypeKeyword)
      modifies this
      ensures Agrees(decl, ParseType(old(Left())))
    {
      hide ParseTypeBody;
      var keyword := Consume(TypeKeyword);
      var name := Consume(Identifier);
      if name.None? { return None; }
      decl := TypeBody(name.value.lexeme);
    }

    method TypeBody(name: string) returns (decl: Option<Declaration>)
      requires Valid() && !hadError
      modifies this
      ensures Agrees(decl, ParseTypeBody(name, old(Left())))
    {
      hide ParseVariants, ParseParams;
      var sum := Match(Equal);
      if sum {
        var variants := VariantList();
        if variants.None? { return None; }
        return Some(SumDeclaration(name, variants.value));
      }
      var tuple := Match(LParen);
      if tuple {
        var fields := ParamList();
        if fields.None? { return None; }
        return Some(TupleDeclaration(name, fields.value));
      }
      Report();
      return None;
    }

    method Declaration() returns (decl: Option<Declaration>)
      requires Valid() && !hadError
      modifies this
      ensures Agrees(decl, ParseDecl(old(Left())))
    {
      hide ParseType, ParseFun, ParseLet;
      if Check(TypeKeyword) {
        decl := TypeDecl();
      } else if Check(FunKeyword) {
        decl := FunDecl();
      } else if Check(LetKeyword) {
        decl := LetDecl();
      } else {
        Report();
        decl := None;
      }
    }

    method Imports() returns (imports: Option<seq<Import>>)
      requires Valid() && !hadError
      modifies this
      ensures Agrees(imports, ParseImports(old(Left())))
    {
      hide Prefixed, ParseImports, ParseImport;
      var list: seq<Import> := [];
      NothingPrefixed(ParseImports(Left()));
      while Check(ImportKeyword)
        invariant Valid() && !hadError
        invariant Prefixed(list, ParseImports(Left())) == ParseImports(old(Left()))
        decreases |tokens| - current
      {
        ImportsStep(list, Left());
        var decl := ImportDecl();
        if decl.None? { return None; }
        list := list + [decl.value];
      }
      ImportsStep(list, Left());
      return Some(list);
    }

    /** nova_parser_parse */
    method Parse() returns (program: Option<Program>)
      requires Valid() && !hadError
      modifies this
      ensures Agrees(program, ParseProgram(old(Left())))
    {
      hide Prefixed, ParsePath, ParseImports, ParseDecls, ParseDecl;
      var keyword := Consume(ModuleKeyword);
      if keyword.None? { return None; }
      var path := ModulePath();
      if path.None? { return None; }
      var imports := Imports();
      if imports.None? { return None; }
      var list: seq<Declaration> := [];
      ghost var start := Left();
      NothingPrefixed(ParseDecls(start));
      while PeekType() != Eof
        invariant Valid() && !hadError
        invariant Prefixed(list, ParseDecls(Left())) == ParseDecls(start)
        decreases |tokens| - current
      {
        DeclsStep(list, Left());
        var decl := Declaration();
        if decl.None? { return None; }
        list := list + [decl.value];
      }
      DeclsStep(list, Left());
      return Some(Program(path.value, imports.value, list));
    }
  }
}
