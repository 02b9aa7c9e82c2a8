/** What the parser accepts is what the grammar allows: the tokens it takes for a tree are a way of
    writing that tree, and every way of writing it is taken for it. */
module ParserGrammar {
  import opened Lexer
  import opened Syntax
  import opened Parser
  import opened Printer
  import opened ParserRoundTrip
  import opened ParserImage
  import opened Programs
  import opened ProgramRoundTrip

  // ----- the style some tokens are written in -----

  predicate IsEnd(ts: Tokens, all: Tokens) {
    |ts| <= |all| && ts == all[|all| - |ts|..]
  }

  /** The token with `n` tokens behind it. */
  function At(all: Tokens, n: nat): Token {
    if n < |all| then all[|all| - 1 - n] else Token(Eof, [])
  }

  function StyleOf(all: Tokens): Style {
    Style((n: nat) => At(all, n).typ == Semicolon,
          (n: nat) => At(all, n).typ == Comma,
          (n: nat) => At(all, n).typ == RParen && At(all, n + 1).typ == LParen,
          (n: nat) => At(all, n).typ == RBrace && At(all, n + 1).typ == LBrace,
          (typ: TokenType, n: nat) => At(all, n).lexeme)
  }

  /** `rest` is left of `all`, and nothing separates it from what has been read. */
  predicate Left(rest: Tokens, all: Tokens) {
    IsEnd(rest, all) && At(all, |rest|).typ != Semicolon
  }

  lemma Step(ts: Tokens, all: Tokens)
    requires IsEnd(ts, all) && ts != []
    ensures IsEnd(ts[1..], all) && At(all, |ts[1..]|) == ts[0]
    ensures Put(ts[0].typ, StyleOf(all), ts[1..]) == ts
    ensures ts[0].typ == Identifier ==> Word(ts[0].lexeme, ts[1..]) == ts
  {
    assert ts == [ts[0]] + ts[1..];
  }

  lemma StepLeft(ts: Tokens, all: Tokens)
    requires IsEnd(ts, all) && ts != [] && ts[0].typ != Semicolon
    ensures Left(ts[1..], all)
  {
    Step(ts, all);
  }

  // ----- parameters -----

  lemma ParamWritten(ts: Tokens, all: Tokens)
    requires ParseParam(ts).Parsed? && IsEnd(ts, all)
    ensures var r := ParseParam(ts); PrintParam(r.value, StyleOf(all), r.rest) == ts && IsEnd(r.rest, all)
  {
    hide Put, Word, IsEnd, At;
    Step(ts, all);
    if Starts(ts[1..], Colon) {
      assert ts[1..][1..] == ts[2..] && ts[2..][1..] == ts[3..];
      Step(ts[1..], all);
      Step(ts[2..], all);
    }
  }

  lemma {:induction false} SomeParamsWritten(ts: Tokens, all: Tokens)
    requires ParseSomeParams(ts).Parsed? && IsEnd(ts, all)
    ensures var r := ParseSomeParams(ts); r.value != [] && PrintSomeParams(r.value, StyleOf(all), r.rest) == ts && Left(r.rest, all)
    decreases |ts|
  {
    hide Put, Word, IsEnd, At, ParseParam, PrintParam, StyleOf;
    ParamWritten(ts, all);
    var rest := ParseParam(ts).rest;
    Step(rest, all);
    StepLeft(rest, all);
    if Starts(rest, Comma) {
      SomeParamsWritten(rest[1..], all);
      var r := ParseSomeParams(ts);
      assert r.value[1..] == ParseSomeParams(rest[1..]).value;
    }
  }

  lemma ParamsWritten(ts: Tokens, all: Tokens)
    requires ParseParams(ts).Parsed? && IsEnd(ts, all)
    ensures var r := ParseParams(ts); PrintParams(r.value, StyleOf(all), r.rest) == ts && Left(r.rest, all)
  {
    hide Put, IsEnd, At, StyleOf;
    if Starts(ts, RParen) {
      Step(ts, all);
      StepLeft(ts, all);
    } else {
      SomeParamsWritten(ts, all);
    }
  }

  // ----- expressions -----

  lemma {:induction false} ExprWritten(ts: Tokens, all: Tokens)
    requires ParseExpr(ts).Parsed? && IsEnd(ts, all)
    ensures var r := ParseExpr(ts); Print(r.value, StyleOf(all), r.rest) == ts && Left(r.rest, all)
    decreases |ts|, 9
  {
    hide ParseIf, ParsePipe, ParseBlock, ParseArms, Put, IsEnd, At, StyleOf, PrintArms, PrintItems;
    match Head(ts)
    case IfKeyword => IfWritten(ts, all);
    case WhileKeyword =>
      Step(ts, all);
      ExprWritten(ts[1..], all);
      BlockWritten(ParseExpr(ts[1..]).rest, all);
    case MatchKeyword => MatchWritten(ts, all);
    case AsyncKeyword =>
      Step(ts, all);
      BlockWritten(ts[1..], all);
    case AwaitKeyword =>
      Step(ts, all);
      ExprWritten(ts[1..], all);
    case Bang =>
      Step(ts, all);
      ExprWritten(ts[1..], all);
    case _ => PipeWritten(ts, all);
  }

  lemma {:induction false} MatchWritten(ts: Tokens, all: Tokens)
    requires Starts(ts, MatchKeyword) && ParseExpr(ts).Parsed? && IsEnd(ts, all)
    ensures var r := ParseExpr(ts); Print(r.value, StyleOf(all), r.rest) == ts && Left(r.rest, all)
    decreases |ts|, 8
  {
    hide ParseIf, ParsePipe, ParseBlock, ParseArms, Put, IsEnd, At, StyleOf, PrintArms;
    Step(ts, all);
    ExprWritten(ts[1..], all);
    var rest := ParseExpr(ts[1..]).rest;
    Step(rest, all);
    ArmsWritten(rest[1..], all);
  }

  lemma {:induction false} IfWritten(ts: Tokens, all: Tokens)
    requires Starts(ts, IfKeyword) && ParseIf(ts).Parsed? && IsEnd(ts, all)
    ensures var r := ParseIf(ts); Print(r.value, StyleOf(all), r.rest) == ts && Left(r.rest, all)
    decreases |ts|, 8
  {
    hide ParseExpr, ParseBlock, Put, IsEnd, At, StyleOf;
    Step(ts, all);
    ExprWritten(ts[1..], all);
    var block := ParseExpr(ts[1..]).rest;
    BlockWritten(block, all);
    var tail := ParseBlock(block).rest;
    if Starts(tail, ElseKeyword) {
      Step(tail, all);
      if Starts(tail[1..], IfKeyword) { ExprWritten(tail[1..], all); } else { BlockWritten(tail[1..], all); }
    }
  }

  lemma {:induction false} BlockWritten(ts: Tokens, all: Tokens)
    requires ParseBlock(ts).Parsed? && IsEnd(ts, all)
    ensures var r := ParseBlock(ts); Print(r.value, StyleOf(all), r.rest) == ts && Left(r.rest, all)
    decreases |ts|, 4
  {
    hide ParseItems, PrintItems, Put, IsEnd, At, StyleOf;
    Step(ts, all);
    ItemsWritten(ts[1..], all);
  }

  /** The separator behind something that has been read, if there is one. */
  lemma SeparatorWritten(rest: Tokens, all: Tokens, must: bool)
    requires Left(rest, all) && (must ==> Starts(rest, Semicolon))
    ensures var more := SkipSemicolon(rest);
      IsEnd(more, all) && Separate(must || StyleOf(all).semicolon(|more|), StyleOf(all), more) == rest
  {
    if Starts(rest, Semicolon) { Step(rest, all); }
  }

  lemma {:induction false} ItemsWritten(ts: Tokens, all: Tokens)
    requires ParseItems(ts).Parsed? && IsEnd(ts, all)
    ensures var r := ParseItems(ts); PrintItems(r.value, StyleOf(all), r.rest) == ts && Left(r.rest, all)
    decreases |ts|, 10
  {
    hide Put, IsEnd, At, StyleOf, ParseExpr, Print, Left, MustSeparate, PrintItems;
    if Starts(ts, RBrace) {
      Step(ts, all);
      StepLeft(ts, all);
      ItemsEnd(StyleOf(all), ts[1..]);
    } else {
      ExprWritten(ts, all);
      var item, rest := ParseExpr(ts).value, ParseExpr(ts).rest;
      var more := SkipSemicolon(rest);
      LeftIsEnd(rest, all);
      ItemsWritten(more, all);
      var r := ParseItems(more);
      var must := r.value != [] && MustSeparate(item, r.value[0]);
      if must { MustBeSeparated(ts, all); }
      SeparatorWritten(rest, all, must);
      ItemWritten(item, r.value, StyleOf(all), r.rest, more);
    }
  }

  lemma ItemsEnd(style: Style, rest: Tokens)
    ensures PrintItems([], style, rest) == Put(RBrace, style, rest)
  {
  }

  lemma ItemWritten(item: Expr, items: seq<Expr>, style: Style, rest: Tokens, more: Tokens)
    requires PrintItems(items, style, rest) == more
    ensures var must := items != [] && MustSeparate(item, items[0]);
      PrintItems([item] + items, style, rest) == Print(item, style, Separate(must || style.semicolon(|more|), style, more))
  {
    hide Print, Separate, MustSeparate;
    assert ([item] + items)[1..] == items;
  }

  lemma LeftIsEnd(rest: Tokens, all: Tokens)
    requires Left(rest, all)
    ensures IsEnd(SkipSemicolon(rest), all)
  {
  }

  /** Without a semicolon the second of two such items would have been read as arguments of the first. */
  lemma MustBeSeparated(ts: Tokens, all: Tokens)
    requires ParseExpr(ts).Parsed?
    requires var more := SkipSemicolon(ParseExpr(ts).rest);
      && ParseItems(more).Parsed? && ParseItems(more).value != [] && MustSeparate(ParseExpr(ts).value, ParseItems(more).value[0])
      && PrintItems(ParseItems(more).value, StyleOf(all), ParseItems(more).rest) == more
    ensures Starts(ParseExpr(ts).rest, Semicolon)
  {
    hide ParseExpr, Print, Put, StyleOf;
    var item, rest := ParseExpr(ts).value, ParseExpr(ts).rest;
    ExprIsPrintable(ts);
    if !Starts(rest, Semicolon) {
      ItemsArePrintable(rest);
      ItemsBegin(ParseItems(rest).value, StyleOf(all), ParseItems(rest).rest);
      StopsEarly(item, rest);
    }
  }

  lemma PatternWritten(ts: Tokens, all: Tokens)
    requires Starts(ts, Identifier) && IsEnd(ts, all)
    requires Starts(ts[1..], LParen) ==> ParseParams(ts[2..]).Parsed?
    ensures var r := if Starts(ts[1..], LParen) then ParseParams(ts[2..]) else Parsed([], ts[1..]);
      Word(ts[0].lexeme, PrintBindings(r.value, StyleOf(all), r.rest)) == ts && Left(r.rest, all)
  {
    hide Put, Word, ParseParams, IsEnd;
    Step(ts, all);
    StepLeft(ts, all);
    if Starts(ts[1..], LParen) {
      assert ts[1..][1..] == ts[2..];
      Step(ts[1..], all);
      ParamsWritten(ts[2..], all);
      var r := ParseParams(ts[2..]);
      if r.value == [] { EmptyWritten(ts[1..], all); }
    }
  }

  /** Empty parentheses show up in the style. */
  lemma EmptyWritten(ts: Tokens, all: Tokens)
    requires Starts(ts, LParen) && IsEnd(ts, all) && ParseParams(ts[1..]).Parsed? && ParseParams(ts[1..]).value == []
    ensures StyleOf(all).parens(|ParseParams(ts[1..]).rest|)
  {
    if !Starts(ts[1..], RParen) { SomeParamsAreSome(ts[1..]); }
    Step(ts, all);
    Step(ts[1..], all);
  }

  lemma SomeParamsAreSome(ts: Tokens)
    requires ParseSomeParams(ts).Parsed?
    ensures ParseSomeParams(ts).value != []
  {
  }

  lemma {:induction false} ArmsWritten(ts: Tokens, all: Tokens)
    requires ParseArms(ts).Parsed? && IsEnd(ts, all)
    ensures var r := ParseArms(ts); PrintArms(r.value, StyleOf(all), r.rest) == ts && Left(r.rest, all)
    decreases |ts|, 10
  {
    hide Put, Word, IsEnd, At, StyleOf, ParseArm, Print, Left, PrintBindings;
    if Starts(ts, RBrace) {
      Step(ts, all);
      StepLeft(ts, all);
    } else {
      var arm, rest := ParseArm(ts).value, ParseArm(ts).rest;
      ArmWritten(ts, all);
      LeftIsEnd(rest, all);
      ArmsWritten(SkipSemicolon(rest), all);
      SeparatorWritten(rest, all, false);
      assert ([arm] + ParseArms(SkipSemicolon(rest)).value)[1..] == ParseArms(SkipSemicolon(rest)).value;
    }
  }

  lemma {:induction false} ArmWritten(ts: Tokens, all: Tokens)
    requires ParseArm(ts).Parsed? && IsEnd(ts, all)
    ensures var r, style := ParseArm(ts), StyleOf(all);
      && Word(r.value.name, PrintBindings(r.value.bindings, style, Put(Arrow, style, Print(r.value.body, style, r.rest)))) == ts
      && Left(r.rest, all)
    decreases |ts|, 9
  {
    hide Put, Word, IsEnd, At, StyleOf, ParseExpr, ParseParams, Print, PrintBindings;
    PatternWritten(ts, all);
    var rest := if Starts(ts[1..], LParen) then ParseParams(ts[2..]).rest else ts[1..];
    Step(rest, all);
    ExprWritten(rest[1..], all);
  }

  lemma {:induction false} PipeWritten(ts: Tokens, all: Tokens)
    requires ParsePipe(ts).Parsed? && IsEnd(ts, all)
    ensures var r := ParsePipe(ts); Print(r.value, StyleOf(all), r.rest) == ts && Left(r.rest, all)
    decreases |ts|, 7
  {
    hide ParseCall, IsEnd, At, StyleOf;
    CallWritten(ts, all);
    var rest := ParseCall(ts).rest;
    if Starts(rest, PipeOperator) {
      Step(rest, all);
      StagesWritten(rest[1..], all);
    }
  }

  lemma {:induction false} StagesWritten(ts: Tokens, all: Tokens)
    requires ParseStages(ts).Parsed? && IsEnd(ts, all)
    ensures var r := ParseStages(ts);
      PrintStages(r.value, StyleOf(all), r.rest) == Put(PipeOperator, StyleOf(all), ts) && Left(r.rest, all)
    decreases |ts|, 7
  {
    hide ParseCall, IsEnd, At, StyleOf, Put, Print;
    CallWritten(ts, all);
    var stage, rest := ParseCall(ts).value, ParseCall(ts).rest;
    if Starts(rest, PipeOperator) {
      Step(rest, all);
      StagesWritten(rest[1..], all);
      var more := ParseStages(rest[1..]).value;
      assert ([stage] + more)[1..] == more;
    } else {
      assert [stage][1..] == [];
    }
  }

  lemma {:induction false} CallWritten(ts: Tokens, all: Tokens)
    requires ParseCall(ts).Parsed? && IsEnd(ts, all)
    ensures var r := ParseCall(ts); Print(r.value, StyleOf(all), r.rest) == ts && Left(r.rest, all)
    decreases |ts|, 6
  {
    hide ParsePrimary, ParseCalls, Print, IsEnd, At, StyleOf;
    PrimaryWritten(ts, all);
    CallsWritten(ParsePrimary(ts).value, ParsePrimary(ts).rest, all);
  }

  lemma CallIsPrinted(callee: Expr, args: seq<Arg>, style: Style, rest: Tokens)
    ensures Print(Call(callee, args), style, rest) == Print(callee, style, Put(LParen, style, PrintArgs(args, style, rest)))
  {
  }

  lemma {:induction false} CallsWritten(callee: Expr, ts: Tokens, all: Tokens)
    requires ParseCalls(callee, ts).Parsed? && Left(ts, all)
    ensures var r := ParseCalls(callee, ts);
      Print(r.value, StyleOf(all), r.rest) == Print(callee, StyleOf(all), ts) && Left(r.rest, all)
    decreases |ts|, 1
  {
    hide ParseArgs, PrintArgs, IsEnd, At, StyleOf, Put, Print;
    if Starts(ts, LParen) {
      Step(ts, all);
      ArgsWritten(ts[1..], all);
      var r := ParseArgs(ts[1..]);
      CallIsPrinted(callee, r.value, StyleOf(all), r.rest);
      CallsWritten(Call(callee, r.value), r.rest, all);
    }
  }

  lemma {:induction false} ArgsWritten(ts: Tokens, all: Tokens)
    requires ParseArgs(ts).Parsed? && IsEnd(ts, all)
    ensures var r := ParseArgs(ts); PrintArgs(r.value, StyleOf(all), r.rest) == ts && Left(r.rest, all)
    decreases |ts|, 12
  {
    hide Put, IsEnd, At, StyleOf;
    if Starts(ts, RParen) {
      Step(ts, all);
      StepLeft(ts, all);
    } else {
      SomeArgsWritten(ts, all);
    }
  }

  lemma {:induction false} SomeArgsWritten(ts: Tokens, all: Tokens)
    requires ParseSomeArgs(ts).Parsed? && IsEnd(ts, all)
    ensures var r := ParseSomeArgs(ts); r.value != [] && PrintSomeArgs(r.value, StyleOf(all), r.rest) == ts && Left(r.rest, all)
    decreases |ts|, 11
  {
    hide Put, Word, IsEnd, At, StyleOf, ParseArg, Print;
    ArgWritten(ts, all);
    var arg, rest := ParseArg(ts).value, ParseArg(ts).rest;
    Step(rest, all);
    StepLeft(rest, all);
    if Starts(rest, Comma) {
      SomeArgsWritten(rest[1..], all);
      var more := ParseSomeArgs(rest[1..]).value;
      assert ([arg] + more)[1..] == more;
    }
  }

  lemma {:induction false} ArgWritten(ts: Tokens, all: Tokens)
    requires ParseArg(ts).Parsed? && IsEnd(ts, all)
    ensures var r, style := ParseArg(ts), StyleOf(all);
      var value := Print(r.value.value, style, r.rest);
      (if r.value.argName.Some? then Word(r.value.argName.value, Put(Equal, style, value)) else value) == ts && Left(r.rest, all)
    decreases |ts|, 10
  {
    hide Put, Word, IsEnd, At, StyleOf, ParseExpr, Print;
    if Starts(ts, Identifier) && Starts(ts[1..], Equal) {
      assert ts[1..][1..] == ts[2..];
      Step(ts, all);
      Step(ts[1..], all);
      ExprWritten(ts[2..], all);
    } else {
      ExprWritten(ts, all);
    }
  }

  lemma {:induction false} ElementsWritten(ts: Tokens, all: Tokens)
    requires ParseElements(ts).Parsed? && IsEnd(ts, all)
    ensures var r := ParseElements(ts); r.value != [] && PrintSomeElements(r.value, StyleOf(all), r.rest) == ts && Left(r.rest, all)
    decreases |ts|, 10
  {
    hide Put, IsEnd, At, StyleOf, ParseExpr, Print;
    ExprWritten(ts, all);
    var e, rest := ParseExpr(ts).value, ParseExpr(ts).rest;
    Step(rest, all);
    StepLeft(rest, all);
    if Starts(rest, Comma) {
      ElementsWritten(rest[1..], all);
      var more := ParseElements(rest[1..]).value;
      assert ([e] + more)[1..] == more;
    }
  }

  lemma {:induction false} ListWritten(ts: Tokens, all: Tokens)
    requires Starts(ts, LBracket) && ParseList(ts).Parsed? && IsEnd(ts, all)
    ensures var r := ParseList(ts); Print(r.value, StyleOf(all), r.rest) == ts && Left(r.rest, all)
    decreases |ts|, 2
  {
    hide Put, IsEnd, At, StyleOf, ParseElements, PrintSomeElements;
    Step(ts, all);
    if Starts(ts[1..], RBracket) {
      assert ts[1..][1..] == ts[2..];
      Step(ts[1..], all);
      StepLeft(ts[1..], all);
    } else {
      ElementsWritten(ts[1..], all);
    }
  }

  lemma {:induction false} LambdaWritten(ts: Tokens, all: Tokens)
    requires Starts(ts, LParen) && ParseLambda(ts).Parsed? && IsEnd(ts, all)
    ensures var r := ParseLambda(ts); Print(r.value, StyleOf(all), r.rest) == ts && Left(r.rest, all)
    decreases |ts|, 2
  {
    hide Put, IsEnd, At, StyleOf, ParseExpr, ParseParams, PrintParams;
    Step(ts, all);
    ParamsWritten(ts[1..], all);
    var rest := ParseParams(ts[1..]).rest;
    Step(rest, all);
    ExprWritten(rest[1..], all);
  }

  lemma {:induction false} PrimaryWritten(ts: Tokens, all: Tokens)
    requires ParsePrimary(ts).Parsed? && IsEnd(ts, all)
    ensures var r := ParsePrimary(ts); Print(r.value, StyleOf(all), r.rest) == ts && Left(r.rest, all)
    decreases |ts|, 5
  {
    hide IsEnd, At, StyleOf, ParseExpr, ParseBlock, ParseList, ParseLambda, LookaheadLambda;
    if LookaheadLambda(ts) {
      LookaheadStarts(ts);
      LambdaWritten(ts, all);
    } else {
      Step(ts, all);
      match Head(ts)
      case LParen =>
        ExprWritten(ts[1..], all);
        var rest := ParseExpr(ts[1..]).rest;
        Step(rest, all);
        StepLeft(rest, all);
      case LBrace => BlockWritten(ts, all);
      case LBracket => ListWritten(ts, all);
      case _ => StepLeft(ts, all);
    }
  }

  lemma LookaheadStarts(ts: Tokens)
    requires LookaheadLambda(ts)
    ensures Starts(ts, LParen)
  {
  }

  // ----- programs -----

  lemma {:induction false} PathWritten(ts: Tokens, all: Tokens)
    requires ParsePath(ts).Parsed? && IsEnd(ts, all)
    ensures var r := ParsePath(ts); r.value != [] && PrintPath(r.value, StyleOf(all), r.rest) == ts && IsEnd(r.rest, all)
    ensures At(all, |ParsePath(ts).rest|).typ == Identifier
    decreases |ts|
  {
    hide Put, Word, IsEnd, At, StyleOf;
    Step(ts, all);
    if Starts(ts[1..], Dot) {
      assert ts[1..][1..] == ts[2..];
      Step(ts[1..], all);
      PathWritten(ts[2..], all);
      var more := ParsePath(ts[2..]).value;
      assert ([ts[0].lexeme] + more)[1..] == more;
    }
  }

  lemma {:induction false} SymbolsWritten(ts: Tokens, all: Tokens)
    requires ParseSymbols(ts).Parsed? && IsEnd(ts, all)
    ensures var r := ParseSymbols(ts); PrintSymbols(r.value, StyleOf(all), r.rest) == ts && IsEnd(r.rest, all)
    decreases |ts|
  {
    hide Put, Word, IsEnd, At;
    Step(ts, all);
    if !Starts(ts, RBrace) {
      assert ts[1..][1..] == ts[2..];
      Step(ts[1..], all);
      var r := ParseSymbols(ts);
      if Starts(ts[1..], Comma) {
        SymbolsWritten(ts[2..], all);
        var more := ParseSymbols(ts[2..]).value;
        assert ([ts[0].lexeme] + more)[1..] == more;
      } else {
        assert r.value[1..] == [] && PrintSymbols([], StyleOf(all), r.rest) == ts[1..];
      }
    }
  }

  lemma ImportWritten(ts: Tokens, all: Tokens)
    requires Starts(ts, ImportKeyword) && ParseImport(ts).Parsed? && IsEnd(ts, all)
    ensures var r := ParseImport(ts); PrintImport(r.value, StyleOf(all), r.rest) == ts && IsEnd(r.rest, all)
  {
    hide Put, Word, IsEnd, ParsePath, PrintPath, ParseSymbols, PrintSymbols;
    Step(ts, all);
    PathWritten(ts[1..], all);
    var rest := ParsePath(ts[1..]).rest;
    if Starts(rest, LBrace) {
      Step(rest, all);
      SymbolsWritten(rest[1..], all);
      var r := ParseSymbols(rest[1..]);
      if r.value == [] { NoSymbolsWritten(rest, all); }
    }
  }

  lemma NoSymbolsWritten(ts: Tokens, all: Tokens)
    requires Starts(ts, LBrace) && IsEnd(ts, all) && ParseSymbols(ts[1..]).Parsed? && ParseSymbols(ts[1..]).value == []
    ensures StyleOf(all).braces(|ParseSymbols(ts[1..]).rest|)
  {
    Step(ts, all);
    Step(ts[1..], all);
  }

  lemma {:induction false} ImportsWritten(ts: Tokens, all: Tokens)
    requires ParseImports(ts).Parsed? && IsEnd(ts, all)
    ensures var r := ParseImports(ts); PrintImports(r.value, StyleOf(all), r.rest) == ts && IsEnd(r.rest, all)
    decreases |ts|
  {
    hide IsEnd, At, StyleOf, ParseImport, PrintImport;
    if Starts(ts, ImportKeyword) {
      ImportWritten(ts, all);
      var decl, rest := ParseImport(ts).value, ParseImport(ts).rest;
      ImportsWritten(rest, all);
      var more := ParseImports(rest).value;
      assert ([decl] + more)[1..] == more;
    }
  }

  lemma AnnotationWritten(ts: Tokens, all: Tokens)
    requires ParseAnnotation(ts).Parsed? && IsEnd(ts, all)
    ensures var r := ParseAnnotation(ts); PrintAnnotation(r.value, StyleOf(all), r.rest) == ts && IsEnd(r.rest, all)
  {
    hide Put, Word, IsEnd, At, StyleOf;
    Step(ts, all);
    if Starts(ts, Colon) {
      assert ts[1..][1..] == ts[2..] && ts[2..][1..] == ts[3..];
      Step(ts[1..], all);
      Step(ts[2..], all);
    }
  }

  lemma VariantWritten(ts: Tokens, all: Tokens)
    requires ParseVariant(ts).Parsed? && IsEnd(ts, all)
    ensures var r := ParseVariant(ts); PrintVariant(r.value, StyleOf(all), r.rest) == ts && IsEnd(r.rest, all)
  {
    hide Put, Word, IsEnd, At, StyleOf, ParseParams, PrintBindings;
    PatternWritten(ts, all);
  }

  lemma {:induction false} VariantsWritten(ts: Tokens, all: Tokens)
    requires ParseVariants(ts).Parsed? && IsEnd(ts, all)
    ensures var r := ParseVariants(ts); r.value != [] && PrintVariants(r.value, StyleOf(all), r.rest) == ts && IsEnd(r.rest, all)
    decreases |ts|
  {
    hide Put, IsEnd, At, StyleOf, ParseVariant, PrintVariant;
    VariantWritten(ts, all);
    var variant, rest := ParseVariant(ts).value, ParseVariant(ts).rest;
    if Starts(rest, Bar) {
      Step(rest, all);
      VariantsWritten(rest[1..], all);
      var more := ParseVariants(rest[1..]).value;
      assert ([variant] + more)[1..] == more;
    }
  }

  /** The keyword and the name of a declaration, and perhaps a third token. */
  lemma HeaderWritten(ts: Tokens, all: Tokens)
    requires IsEnd(ts, all) && ts != [] && Starts(ts[1..], Identifier)
    ensures Put(ts[0].typ, StyleOf(all), Word(ts[1].lexeme, ts[2..])) == ts && IsEnd(ts[2..], all)
    ensures ts[2..] != [] ==> Put(ts[2].typ, StyleOf(all), ts[3..]) == ts[2..] && IsEnd(ts[3..], all)
  {
    hide Put, Word, IsEnd, At, StyleOf;
    assert ts[1..][1..] == ts[2..];
    Step(ts, all);
    Step(ts[1..], all);
    if ts[2..] != [] {
      assert ts[2..][1..] == ts[3..];
      Step(ts[2..], all);
    }
  }

  lemma DeclWritten(ts: Tokens, all: Tokens)
    requires ParseDecl(ts).Parsed? && IsEnd(ts, all)
    ensures var r := ParseDecl(ts); PrintDecl(r.value, StyleOf(all), r.rest) == ts && IsEnd(r.rest, all)
  {
    hide IsEnd, At, StyleOf, ParseLet, ParseFun, ParseType, PrintDecl;
    match Head(ts)
    case LetKeyword => LetWritten(ts, all);
    case FunKeyword => FunWritten(ts, all);
    case _ => TypeWritten(ts, all);
  }

  lemma LetWritten(ts: Tokens, all: Tokens)
    requires Starts(ts, LetKeyword) && ParseLet(ts).Parsed? && IsEnd(ts, all)
    ensures var r := ParseLet(ts); PrintDecl(r.value, StyleOf(all), r.rest) == ts && IsEnd(r.rest, all)
  {
    hide Put, Word, IsEnd, At, StyleOf, ParseExpr, Print, ParseAnnotation, PrintAnnotation;
    HeaderWritten(ts, all);
    AnnotationWritten(ts[2..], all);
    ExprWritten(ParseAnnotation(ts[2..]).rest, all);
  }

  lemma FunWritten(ts: Tokens, all: Tokens)
    requires Starts(ts, FunKeyword) && ParseFun(ts).Parsed? && IsEnd(ts, all)
    ensures var r := ParseFun(ts); PrintDecl(r.value, StyleOf(all), r.rest) == ts && IsEnd(r.rest, all)
  {
    hide Put, Word, IsEnd, At, StyleOf, ParseExpr, Print, ParseAnnotation, PrintAnnotation, ParseParams, PrintParams;
    HeaderWritten(ts, all);
    ParamsWritten(ts[3..], all);
    var rest := ParseParams(ts[3..]).rest;
    AnnotationWritten(rest, all);
    ExprWritten(ParseAnnotation(rest).rest, all);
  }

  lemma TypeWritten(ts: Tokens, all: Tokens)
    requires Starts(ts, TypeKeyword) && ParseType(ts).Parsed? && IsEnd(ts, all)
    ensures var r := ParseType(ts); PrintDecl(r.value, StyleOf(all), r.rest) == ts && IsEnd(r.rest, all)
  {
    hide Put, Word, IsEnd, At, StyleOf, ParseVariants, PrintVariants, ParseParams, PrintParams;
    HeaderWritten(ts, all);
    assert ts[2..][1..] == ts[3..];
    if Starts(ts[2..], Equal) { VariantsWritten(ts[3..], all); } else { ParamsWritten(ts[3..], all); }
  }

  lemma {:induction false} DeclsWritten(ts: Tokens, all: Tokens)
    requires ParseDecls(ts).Parsed? && IsEnd(ts, all)
    ensures var r := ParseDecls(ts); PrintDecls(r.value, StyleOf(all), r.rest) == ts && Head(r.rest) == Eof
    decreases |ts|
  {
    hide IsEnd, At, StyleOf, ParseDecl, PrintDecl;
    if Head(ts) != Eof {
      DeclWritten(ts, all);
      var decl, rest := ParseDecl(ts).value, ParseDecl(ts).rest;
      DeclsWritten(rest, all);
      var more := ParseDecls(rest).value;
      assert ([decl] + more)[1..] == more;
    }
  }

  lemma ProgramWritten(ts: Tokens)
    requires ParseProgram(ts).Parsed?
    ensures var r := ParseProgram(ts); PrintProgram(r.value, StyleOf(ts), r.rest) == ts && Head(r.rest) == Eof
  {
    hide Put, At, StyleOf, ParsePath, PrintPath, ParseImports, PrintImports, ParseDecls, PrintDecls;
    Step(ts, ts);
    PathWritten(ts[1..], ts);
    var rest := ParsePath(ts[1..]).rest;
    ImportsWritten(rest, ts);
    DeclsWritten(ParseImports(rest).rest, ts);
  }

  // ----- accepted if and only if written -----

  /** `ts` without `rest` is a way of writing `e`. */
  ghost predicate Writes(e: Expr, ts: Tokens, rest: Tokens) {
    exists style: Style :: Print(e, style, rest) == ts
  }

  ghost predicate WritesProgram(p: Program, ts: Tokens, end: Tokens) {
    exists style: Style :: PrintProgram(p, style, end) == ts
  }

  /** The parser takes tokens for an expression, up to some rest, if and only if they are a way of
      writing that expression, and what is left does not continue it. */
  lemma ExprParsedIffWritten(ts: Tokens, e: Expr, rest: Tokens)
    ensures ParseExpr(ts) == Parsed(e, rest) <==> Printable(e) && Writes(e, ts, rest) && Stops(e, rest)
  {
    hide ParseExpr, Print, Printable, Stops, StyleOf;
    if ParseExpr(ts) == Parsed(e, rest) {
      ExprIsPrintable(ts);
      ExprWritten(ts, ts);
      assert Print(e, StyleOf(ts), rest) == ts;
    }
    if Printable(e) && Writes(e, ts, rest) && Stops(e, rest) {
      var style: Style :| Print(e, style, rest) == ts;
      ExprRound(e, style, rest);
    }
  }

  /** The parser takes tokens for a program if and only if they are a way of writing it, up to an end of
      file. It reports an error for all others. */
  lemma ProgramParsedIffWritten(ts: Tokens, p: Program, end: Tokens)
    ensures ParseProgram(ts) == Parsed(p, end) <==> PrintableProgram(p) && WritesProgram(p, ts, end) && Head(end) == Eof
  {
    hide ParseProgram, PrintProgram, PrintableProgram, StyleOf;
    if ParseProgram(ts) == Parsed(p, end) {
      PrintableProgramIffParsed(p);
      ProgramWritten(ts);
      assert PrintProgram(p, StyleOf(ts), end) == ts;
    }
    if PrintableProgram(p) && WritesProgram(p, ts, end) && Head(end) == Eof {
      var style: Style :| PrintProgram(p, style, end) == ts;
      ProgramRound(p, style, end);
    }
  }
}
