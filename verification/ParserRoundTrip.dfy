/** The parser undoes the printer: for every tree it can build, and however optional semicolons
    are written, it returns that tree and leaves exactly what was behind it. */
module ParserRoundTrip {
  import opened Lexer
  import opened Syntax
  import opened Parser
  import opened Printer

  /** What may stand behind an expression. */
  predicate Quiet(rest: Tokens) {
    Head(rest) != ElseKeyword && Head(rest) != Equal && Head(rest) != Arrow && Head(rest) != ArrowFn
  }

  predicate Ends(e: Expr, rest: Tokens) {
    Quiet(rest) && (SelfEnding(e) || (Head(rest) != LParen && Head(rest) != PipeOperator))
  }

  predicate Continues(rest: Tokens) {
    Head(rest) == LParen || Head(rest) == PipeOperator
  }

  /** Parsing the tokens of `e` comes to an end in front of `rest`. */
  predicate Stops(e: Expr, rest: Tokens)
    decreases e, 1
  {
    match e
    case If(_, _, no) => if no.None? then Head(rest) != ElseKeyword else no.value.If? ==> Stops(no.value, rest)
    case While(_, _) => true
    case Match(_, _) => true
    case Async(_) => true
    case Await(inner) => Stops(inner, rest)
    case Effect(inner) => Stops(inner, rest)
    case Pipe(_, stages) => !Continues(rest) && (stages != [] ==> CallStops(stages[|stages| - 1], rest))
    case _ => !Continues(rest) && CallStops(e, rest)
  }

  /** The same at call level, where another argument list or stage may follow. A name in parentheses is
      a parameter list in front of an arrow. */
  predicate CallStops(e: Expr, rest: Tokens)
    decreases e, 0
  {
    match e
    case Lambda(_, body) => Stops(body, rest)
    case Paren(inner) => inner.Ident? ==> Head(rest) != Arrow && Head(rest) != ArrowFn
    case _ => true
  }

  lemma {:induction false} EndsStop(e: Expr, rest: Tokens)
    requires Ends(e, rest)
    ensures Stops(e, rest)
  {
    match e
    case If(_, _, no) => if no.Some? && no.value.If? { EndsStop(no.value, rest); }
    case Await(inner) => EndsStop(inner, rest);
    case Effect(inner) => EndsStop(inner, rest);
    case Pipe(_, stages) => if stages != [] { CallsStop(stages[|stages| - 1], rest); }
    case Lambda(_, body) => EndsStop(body, rest);
    case _ =>
  }

  lemma {:induction false} CallsStop(e: Expr, rest: Tokens)
    requires Quiet(rest) && (e.Lambda? ==> Ends(e.body, rest))
    ensures CallStops(e, rest)
  {
    if e.Lambda? { EndsStop(e.body, rest); }
  }

  /** What must end where another argument list or stage begins ends there by itself. */
  lemma {:induction false} StopsEarly(e: Expr, rest: Tokens)
    requires Stops(e, rest) && Continues(rest)
    ensures SelfEnding(e)
  {
    match e
    case Await(inner) => StopsEarly(inner, rest);
    case Effect(inner) => StopsEarly(inner, rest);
    case _ =>
  }

  // ----- parameters -----

  lemma {:induction false} SomeParamsRound(params: seq<Param>, style: Style, rest: Tokens)
    requires params != []
    ensures ParseSomeParams(PrintSomeParams(params, style, rest)) == Parsed(params, rest)
  {
    hide Put, Word, ParseParam, PrintParam, ParseSomeParams;
    var tail := if |params| == 1 then Put(RParen, style, rest) else Put(Comma, style, PrintSomeParams(params[1..], style, rest));
    ParamRound(params[0], style, tail);
    if |params| > 1 { SomeParamsRound(params[1..], style, rest); }
    ParamParsed(params[0], PrintParam(params[0], style, tail), tail, params[1..], rest);
    assert params == [params[0]] + params[1..];
  }

  /** What ParseSomeParams returns, given what its parts return. */
  lemma ParamParsed(param: Param, ts: Tokens, tail: Tokens, params: seq<Param>, rest: Tokens)
    requires ParseParam(ts) == Parsed(param, tail)
    requires if params == [] then Starts(tail, RParen) && tail[1..] == rest
             else Starts(tail, Comma) && ParseSomeParams(tail[1..]) == Parsed(params, rest)
    ensures ParseSomeParams(ts) == Parsed([param] + params, rest)
  {
    hide ParseParam;
    assert params == [] ==> [param] + params == [param];
  }

  lemma ParamRound(param: Param, style: Style, rest: Tokens)
    requires Head(rest) != Colon
    ensures ParseParam(PrintParam(param, style, rest)) == Parsed(param, rest)
  {
    hide Put, Word;
    var ts := PrintParam(param, style, rest);
    if param.typeName.Some? {
      var name := Word(param.typeName.value, rest);
      assert ts[1..] == Put(Colon, style, name) && ts[1..][1..] == name;
      assert ts[2..] == name && ts[3..] == rest;
    } else {
      assert ts[1..] == rest;
    }
  }

  lemma ParamsRound(params: seq<Param>, style: Style, rest: Tokens)
    ensures ParseParams(PrintParams(params, style, rest)) == Parsed(params, rest)
  {
    hide Put, Word;
    if params != [] {
      SomeParamsRound(params, style, rest);
    }
  }

  lemma {:induction false} ParamsSkipped(params: seq<Param>, style: Style, rest: Tokens)
    ensures SkipParams(PrintParams(params, style, rest)) == Some(rest)
  {
    hide Put, Word;
    if params != [] {
      var tail := if |params| == 1 then Put(RParen, style, rest) else Put(Comma, style, PrintSomeParams(params[1..], style, rest));
      if |params| > 1 {
        ParamsSkipped(params[1..], style, rest);
        assert tail[1..] == PrintParams(params[1..], style, rest);
      }
      assert SkipParams(tail) == Some(rest);
      ParamSkipped(params[0], style, tail);
    }
  }

  lemma ParamSkipped(param: Param, style: Style, rest: Tokens)
    ensures SkipParams(PrintParam(param, style, rest)) == SkipParams(rest)
  {
    hide Put, Word;
    if param.typeName.Some? {
      var name := Word(param.typeName.value, rest);
      assert SkipParams(name) == SkipParams(rest);
      assert SkipParams(Put(Colon, style, name)) == SkipParams(name);
    }
  }

  // ----- how the tokens of an expression begin -----

  predicate BeginsExpr(typ: TokenType) {
    BeginsCall(typ) || typ == IfKeyword || typ == WhileKeyword || typ == MatchKeyword
    || typ == AsyncKeyword || typ == AwaitKeyword || typ == Bang
  }

  predicate BeginsCall(typ: TokenType) {
    typ == NumberToken || typ == StringToken || typ == TrueKeyword || typ == FalseKeyword || typ == Identifier
    || typ == LParen || typ == LBrace || typ == LBracket
  }

  lemma {:induction false} FirstToken(e: Expr, style: Style, rest: Tokens)
    requires Printable(e)
    ensures var typ := Head(Print(e, style, rest));
            && BeginsExpr(typ) && (typ == LParen <==> OpensWithParen(e))
            && (CallLevel(e) || e.Pipe? ==> BeginsCall(typ))
            && (e.If? ==> typ == IfKeyword) && (e.Block? ==> typ == LBrace)
            && (typ == Identifier ==> e.Ident? || e.Call? || e.Pipe?)
  {
    hide Put, Word;
    match e
    case Call(callee, args) => FirstToken(callee, style, Put(LParen, style, PrintArgs(args, style, rest)));
    case Pipe(target, stages) => FirstToken(target, style, PrintStages(stages, style, rest));
    case _ =>
  }

  /** An expression is not taken for a named argument. */
  lemma {:induction false} NotNamed(e: Expr, style: Style, rest: Tokens)
    requires Printable(e) && Head(rest) != Equal
    ensures var ts := Print(e, style, rest);
            ts != [] && !(ts[0].typ == Identifier && Head(ts[1..]) == Equal)
  {
    hide Put, Word;
    match e
    case Call(callee, args) => NotNamed(callee, style, Put(LParen, style, PrintArgs(args, style, rest)));
    case Pipe(target, stages) => NotNamed(target, style, PrintStages(stages, style, rest));
    case _ =>
  }

  /** A parenthesised expression is not taken for a parameter list, unless it is a name. */
  lemma {:induction false} ExprNotSkipped(e: Expr, style: Style, rest: Tokens)
    requires Printable(e)
    ensures var skipped := SkipParams(Print(e, style, rest));
            skipped == None || (e.Ident? && skipped == SkipParams(rest))
  {
    hide Put, Word;
    if e.Call? {
      var tail := Put(LParen, style, PrintArgs(e.args, style, rest));
      ExprNotSkipped(e.callee, style, tail);
      assert SkipParams(tail) == None;
    } else if e.Pipe? {
      var tail := PrintStages(e.stages, style, rest);
      ExprNotSkipped(e.target, style, tail);
      assert SkipParams(tail) == None;
    } else if !e.Ident? {
      FirstToken(e, style, rest);
      NothingSkipped(Print(e, style, rest));
    } else {
      assert Print(e, style, rest)[1..] == rest;
    }
  }

  lemma NothingSkipped(ts: Tokens)
    requires BeginsExpr(Head(ts)) && Head(ts) != Identifier
    ensures SkipParams(ts) == None
  {
  }

  // ----- the round trip -----

  lemma {:induction false} ExprRound(e: Expr, style: Style, rest: Tokens)
    requires Printable(e) && Stops(e, rest)
    ensures ParseExpr(Print(e, style, rest)) == Parsed(e, rest)
    decreases e, 5
  {
    hide ParseExpr, Print;
    match e
    case If(_, _, _) => IfRound(e, style, rest);
    case While(_, _) => WhileRound(e, style, rest);
    case Match(_, _) => MatchRound(e, style, rest);
    case Async(_) => PrefixRound(e, style, rest);
    case Await(_) => PrefixRound(e, style, rest);
    case Effect(_) => PrefixRound(e, style, rest);
    case _ => PipeRound(e, style, rest);
  }

  lemma {:induction false} PrefixRound(e: Expr, style: Style, rest: Tokens)
    requires (e.Async? || e.Await? || e.Effect?) && Printable(e) && Stops(e, rest)
    ensures ParseExpr(Print(e, style, rest)) == Parsed(e, rest)
    decreases e, 4
  {
    hide Put, ParseExpr, ParseBlock;
    var typ := if e.Async? then AsyncKeyword else if e.Await? then AwaitKeyword else Bang;
    var ts := Print(e.inner, style, rest);
    if e.Async? {
      BlockRound(e.inner, style, rest);
    } else {
      ExprRound(e.inner, style, rest);
    }
    PrefixParsed(typ, Put(typ, style, ts));
  }

  lemma PrefixParsed(typ: TokenType, ts: Tokens)
    requires Starts(ts, typ)
    ensures var block, inner := ParseBlock(ts[1..]), ParseExpr(ts[1..]);
      && (typ == AsyncKeyword && block.Parsed? ==> ParseExpr(ts) == Parsed(Async(block.value), block.rest))
      && (typ == AwaitKeyword && inner.Parsed? ==> ParseExpr(ts) == Parsed(Await(inner.value), inner.rest))
      && (typ == Bang && inner.Parsed? ==> ParseExpr(ts) == Parsed(Effect(inner.value), inner.rest))
  {
    hide ParseBlock, ParsePipe, ParseIf, ParseArms;
  }

  /** A condition ends in front of a block. */
  lemma BlockEnds(c: Expr, body: Expr, style: Style, rest: Tokens)
    requires Printable(body) && IsBlock(body)
    ensures Stops(c, Print(body, style, rest))
  {
    hide Put, Word;
    FirstToken(body, style, rest);
    EndsStop(c, Print(body, style, rest));
  }

  lemma {:induction false} WhileRound(e: Expr, style: Style, rest: Tokens)
    requires e.While? && Printable(e)
    ensures ParseExpr(Print(e, style, rest)) == Parsed(e, rest)
    decreases e, 4
  {
    hide Put, Word, ParsePipe, ParseIf, ParseBlock, ParseArms, PrintItems;
    var block := Print(e.body, style, rest);
    BlockEnds(e.cond, e.body, style, rest);
    ExprRound(e.cond, style, block);
    BlockRound(e.body, style, rest);
  }

  lemma {:induction false} IfRound(e: Expr, style: Style, rest: Tokens)
    requires e.If? && Printable(e) && Stops(e, rest)
    ensures ParseExpr(Print(e, style, rest)) == Parsed(e, rest)
    decreases e, 4
  {
    hide Put, Word, ParseExpr, ParseBlock, PrintItems, ParseIf;
    var tail := if e.elseBranch.Some? then Put(ElseKeyword, style, Print(e.elseBranch.value, style, rest)) else rest;
    var block := Print(e.thenBranch, style, tail);
    BlockEnds(e.cond, e.thenBranch, style, tail);
    ExprRound(e.cond, style, block);
    BlockRound(e.thenBranch, style, tail);
    if e.elseBranch.Some? { ElseRound(e, style, rest); }
    IfParsed(e, style, Print(e.cond, style, block), block, tail, rest);
  }

  /** What ParseIf returns, given what its parts return. */
  lemma IfParsed(e: Expr, style: Style, ts: Tokens, block: Tokens, tail: Tokens, rest: Tokens)
    requires e.If?
    requires ParseExpr(ts) == Parsed(e.cond, block) && ParseBlock(block) == Parsed(e.thenBranch, tail)
    requires if e.elseBranch.None? then tail == rest && Head(rest) != ElseKeyword
             else Starts(tail, ElseKeyword)
                  && (if Starts(tail[1..], IfKeyword) then ParseExpr(tail[1..]) else ParseBlock(tail[1..]))
                     == Parsed(e.elseBranch.value, rest)
    ensures ParseExpr(Put(IfKeyword, style, ts)) == Parsed(e, rest)
  {
    hide Put, Word, ParseBlock;
    assert Put(IfKeyword, style, ts)[1..] == ts;
  }

  lemma {:induction false} ElseRound(e: Expr, style: Style, rest: Tokens)
    requires e.If? && Printable(e) && Stops(e, rest) && e.elseBranch.Some?
    ensures var ts := Print(e.elseBranch.value, style, rest);
            (if Starts(ts, IfKeyword) then ParseExpr(ts) else ParseBlock(ts)) == Parsed(e.elseBranch.value, rest)
    decreases e, 3
  {
    hide Put, Word, ParseExpr, ParseBlock, Print;
    var no := e.elseBranch.value;
    FirstToken(no, style, rest);
    if no.If? { IfRound(no, style, rest); } else { BlockRound(no, style, rest); }
  }

  lemma {:induction false} MatchRound(e: Expr, style: Style, rest: Tokens)
    requires e.Match? && Printable(e)
    ensures ParseExpr(Print(e, style, rest)) == Parsed(e, rest)
    decreases e, 4
  {
    hide Put, Word, ParsePipe, ParseArms, PrintArms;
    var arms := PrintArms(e.arms, style, rest);
    EndsStop(e.scrutinee, Put(LBrace, style, arms));
    ExprRound(e.scrutinee, style, Put(LBrace, style, arms));
    ArmsRound(e.arms, style, rest);
    assert Print(e, style, rest)[1..] == Print(e.scrutinee, style, Put(LBrace, style, arms));
  }

  lemma {:induction false} BlockRound(e: Expr, style: Style, rest: Tokens)
    requires IsBlock(e) && Printable(e)
    ensures ParseBlock(Print(e, style, rest)) == Parsed(e, rest)
    decreases e, 0
  {
    hide Put, Word, ParseItems, PrintItems;
    ItemsRound(e.items, style, rest);
  }

  lemma ItemsBegin(items: seq<Expr>, style: Style, rest: Tokens)
    requires AllPrintable(items)
    ensures var typ := Head(PrintItems(items, style, rest));
            if items == [] then typ == RBrace else BeginsExpr(typ) && (typ == LParen <==> OpensWithParen(items[0]))
  {
    hide Put, Word, Printable, Print, Separated;
    if items != [] {
      var more := PrintItems(items[1..], style, rest);
      FirstToken(items[0], style, Separate(Separated(items, style, more), style, more));
    }
  }

  /** Nothing but the separator stands between items, and none is needed in front of the brace. */
  lemma ItemEnds(items: seq<Expr>, style: Style, rest: Tokens)
    requires items != [] && AllPrintable(items)
    ensures var tail := PrintItems(items[1..], style, rest);
            var behind := Separate(Separated(items, style, tail), style, tail);
            Stops(items[0], behind) && SkipSemicolon(behind) == tail
  {
    hide Put, Word, Printable, PrintItems, Stops;
    ItemsBegin(items[1..], style, rest);
    var tail := PrintItems(items[1..], style, rest);
    EndsStop(items[0], Separate(Separated(items, style, tail), style, tail));
  }

  lemma {:induction false} ItemsRound(items: seq<Expr>, style: Style, rest: Tokens)
    requires AllPrintable(items)
    ensures ParseItems(PrintItems(items, style, rest)) == Parsed(items, rest)
    decreases items, 0
  {
    hide Put, Word, ParseExpr, Print, Printable, Separated, Ends, Stops;
    if items != [] {
      var more := PrintItems(items[1..], style, rest);
      var behind := Separate(Separated(items, style, more), style, more);
      ItemEnds(items, style, rest);
      FirstToken(items[0], style, behind);
      ExprRound(items[0], style, behind);
      ItemsRound(items[1..], style, rest);
      assert items == [items[0]] + items[1..];
    }
  }

  lemma {:induction false} ArmsRound(arms: seq<Arm>, style: Style, rest: Tokens)
    requires ArmsPrintable(arms)
    ensures ParseArms(PrintArms(arms, style, rest)) == Parsed(arms, rest)
    decreases arms, 0
  {
    hide Put, Word, ParseExpr, Print, Printable, PrintBindings, ParseArms, Stops, Ends;
    if arms != [] {
      var arm := arms[0];
      var more := PrintArms(arms[1..], style, rest);
      var tail := Separate(style.semicolon(|more|), style, more);
      var body := Print(arm.body, style, tail);
      ArmEnds(arms, style, rest);
      ExprRound(arm.body, style, tail);
      ArmsRound(arms[1..], style, rest);
      ArmParsed(arm, style, body, tail);
      ArmsParsed(PrintArms(arms, style, rest), arm, tail, arms[1..], rest);
      assert arms == [arm] + arms[1..];
    } else {
      ArmsEnd(rest, style);
    }
  }

  lemma ArmsEnd(rest: Tokens, style: Style)
    ensures ParseArms(Put(RBrace, style, rest)) == Parsed([], rest)
  {
  }

  lemma ArmEnds(arms: seq<Arm>, style: Style, rest: Tokens)
    requires arms != []
    ensures var more := PrintArms(arms[1..], style, rest);
            var tail := Separate(style.semicolon(|more|), style, more);
            SkipSemicolon(tail) == more && Stops(arms[0].body, tail)
  {
    hide Put, Word, PrintBindings, Print, Stops;
    var more := PrintArms(arms[1..], style, rest);
    EndsStop(arms[0].body, Separate(style.semicolon(|more|), style, more));
  }

  /** What ParseArm returns, given what ParseExpr does. */
  lemma ArmParsed(arm: Arm, style: Style, body: Tokens, tail: Tokens)
    requires ParseExpr(body) == Parsed(arm.body, tail)
    ensures ParseArm(Word(arm.name, PrintBindings(arm.bindings, style, Put(Arrow, style, body)))) == Parsed(arm, tail)
  {
    hide Put, Word, ParseExpr, ParseParams, PrintParams;
    var pattern := PrintBindings(arm.bindings, style, Put(Arrow, style, body));
    var ts := Word(arm.name, pattern);
    if arm.bindings != [] || style.parens(|Put(Arrow, style, body)|) {
      var params := PrintParams(arm.bindings, style, Put(Arrow, style, body));
      ParamsRound(arm.bindings, style, Put(Arrow, style, body));
      assert pattern[1..] == params && ts[2..] == params;
    }
  }

  lemma ArmsParsed(ts: Tokens, arm: Arm, tail: Tokens, arms: seq<Arm>, rest: Tokens)
    requires Starts(ts, Identifier)
    requires ParseArm(ts) == Parsed(arm, tail) && ParseArms(SkipSemicolon(tail)) == Parsed(arms, rest)
    ensures ParseArms(ts) == Parsed([arm] + arms, rest)
  {
    hide ParseArm;
  }

  lemma ExprIsPipe(ts: Tokens)
    requires BeginsCall(Head(ts))
    ensures ParseExpr(ts) == ParsePipe(ts)
  {
  }

  lemma {:induction false} PipeRound(e: Expr, style: Style, rest: Tokens)
    requires (CallLevel(e) || e.Pipe?) && Printable(e) && Stops(e, rest)
    ensures ParseExpr(Print(e, style, rest)) == Parsed(e, rest)
    decreases e, 4
  {
    hide Put, Word, ParseExpr, ParseCall, PrintArgs, ParseStages, BeginsCall, BeginsExpr, CallStops;
    FirstToken(e, style, rest);
    ExprIsPipe(Print(e, style, rest));
    if e.Pipe? {
      var stages := PrintStages(e.stages, style, rest);
      ContinuableStops(e.target, stages);
      CallRound(e.target, style, stages);
      StagesRound(e.stages, style, rest);
    } else {
      CallRound(e, style, rest);
    }
  }

  lemma {:induction false} StagesRound(stages: seq<Expr>, style: Style, rest: Tokens)
    requires stages != [] && StagesPrintable(stages) && !Continues(rest) && CallStops(stages[|stages| - 1], rest)
    ensures ParseStages(PrintStages(stages, style, rest)[1..]) == Parsed(stages, rest)
    decreases stages, 0
  {
    hide Put, Word, ParseCall, Print, Printable;
    var tail := PrintStages(stages[1..], style, rest);
    if |stages| > 1 { ContinuableStops(stages[0], tail); }
    CallRound(stages[0], style, tail);
    if |stages| > 1 {
      StagesRound(stages[1..], style, rest);
      assert stages == [stages[0]] + stages[1..];
    } else {
      assert stages == [stages[0]];
    }
  }

  lemma ContinuableStops(e: Expr, rest: Tokens)
    requires Continuable(e) && Continues(rest)
    ensures CallStops(e, rest)
  {
    CallsStop(e, rest);
  }

  /** A call is read as its callee first, and then its arguments in the loop. */
  lemma {:induction false} CallRound(e: Expr, style: Style, rest: Tokens)
    requires CallLevel(e) && Printable(e) && CallStops(e, rest)
    ensures ParseCall(Print(e, style, rest)) == ParseCalls(e, rest)
    decreases e, 3
  {
    hide Put, Word, ParsePrimary, ParseArgs, PrintArgs;
    if e.Call? {
      var args := PrintArgs(e.args, style, rest);
      ContinuableStops(e.callee, Put(LParen, style, args));
      CallRound(e.callee, style, Put(LParen, style, args));
      ArgsRound(e.args, style, rest);
    } else {
      PrimaryRound(e, style, rest);
    }
  }

  lemma {:induction false} PrimaryRound(e: Expr, style: Style, rest: Tokens)
    requires CallLevel(e) && !e.Call? && Printable(e) && CallStops(e, rest)
    ensures ParsePrimary(Print(e, style, rest)) == Parsed(e, rest)
    decreases e, 2
  {
    hide ParsePrimary, Print;
    match e
    case Paren(_) => ParenRound(e, style, rest);
    case Lambda(_, _) => LambdaRound(e, style, rest);
    case Block(_) => BracesRound(e, style, rest);
    case ListLiteral(es) => ListRound(e, style, rest);
    case _ => LeafRound(e, style, rest);
  }

  lemma LeafRound(e: Expr, style: Style, rest: Tokens)
    requires e.Number? || e.Str? || e.Bool? || e.Ident?
    ensures ParsePrimary(Print(e, style, rest)) == Parsed(e, rest)
  {
    hide Put, Word, ParseExpr, ParseBlock, SkipParams;
  }

  lemma {:induction false} BracesRound(e: Expr, style: Style, rest: Tokens)
    requires e.Block? && Printable(e)
    ensures ParsePrimary(Print(e, style, rest)) == Parsed(e, rest)
    decreases e, 1
  {
    hide Put, Word, ParseExpr, ParseBlock, SkipParams, Printable;
    BlockRound(e, style, rest);
  }

  lemma {:induction false} ParenRound(e: Expr, style: Style, rest: Tokens)
    requires e.Paren? && Printable(e) && CallStops(e, rest)
    ensures ParsePrimary(Print(e, style, rest)) == Parsed(e, rest)
    decreases e, 0
  {
    hide Put, ParseExpr, ParsePrimary, LookaheadLambda, Stops;
    var close := Put(RParen, style, rest);
    ParenIsNoLambda(e, style, rest);
    EndsStop(e.inner, close);
    ExprRound(e.inner, style, close);
    ParenParsed(Print(e, style, rest), e.inner, close);
  }

  lemma ParenIsNoLambda(e: Expr, style: Style, rest: Tokens)
    requires e.Paren? && Printable(e) && CallStops(e, rest)
    ensures !LookaheadLambda(Print(e, style, rest))
  {
    hide Put, Word;
    var close := Put(RParen, style, rest);
    ExprNotSkipped(e.inner, style, close);
    assert SkipParams(close) == Some(rest);
  }

  lemma ParenParsed(ts: Tokens, e: Expr, close: Tokens)
    requires Starts(ts, LParen) && !LookaheadLambda(ts) && ParseExpr(ts[1..]) == Parsed(e, close) && Starts(close, RParen)
    ensures ParsePrimary(ts) == Parsed(Paren(e), close[1..])
  {
    hide ParseExpr, LookaheadLambda;
  }

  lemma {:induction false} LambdaRound(e: Expr, style: Style, rest: Tokens)
    requires e.Lambda? && Printable(e) && Stops(e.body, rest)
    ensures ParsePrimary(Print(e, style, rest)) == Parsed(e, rest)
    decreases e, 0
  {
    hide Put, Word, ParseExpr, ParseParams, PrintParams, SkipParams;
    var body := Print(e.body, style, rest);
    ParamsSkipped(e.params, style, Put(Arrow, style, body));
    ParamsRound(e.params, style, Put(Arrow, style, body));
    ExprRound(e.body, style, rest);
  }

  lemma {:induction false} ListRound(e: Expr, style: Style, rest: Tokens)
    requires e.ListLiteral? && Printable(e)
    ensures ParsePrimary(Print(e, style, rest)) == Parsed(e, rest)
    decreases e, 0
  {
    hide Put, Word, ParseExpr, ParseElements, SkipParams, PrintSomeElements;
    var ts := Print(e, style, rest);
    assert ts[1..] == PrintElements(e.elements, style, rest);
    if e.elements != [] {
      ElementsRound(e.elements, style, rest);
      ElementsBegin(e.elements, style, rest);
    } else {
      assert ts[2..] == rest;
    }
  }

  lemma ElementsBegin(es: seq<Expr>, style: Style, rest: Tokens)
    requires es != [] && AllPrintable(es)
    ensures BeginsExpr(Head(PrintSomeElements(es, style, rest)))
  {
    hide Put, Word;
    FirstToken(es[0], style, if |es| == 1 then Put(RBracket, style, rest) else Put(Comma, style, PrintSomeElements(es[1..], style, rest)));
  }

  lemma {:induction false} ElementsRound(es: seq<Expr>, style: Style, rest: Tokens)
    requires es != [] && AllPrintable(es)
    ensures ParseElements(PrintSomeElements(es, style, rest)) == Parsed(es, rest)
    decreases es, 0
  {
    hide Put, Word, ParseExpr, Print, Printable;
    var tail := if |es| == 1 then Put(RBracket, style, rest) else Put(Comma, style, PrintSomeElements(es[1..], style, rest));
    EndsStop(es[0], tail);
    ExprRound(es[0], style, tail);
    if |es| > 1 {
      ElementsRound(es[1..], style, rest);
      assert es == [es[0]] + es[1..];
    } else {
      assert es == [es[0]];
    }
  }

  lemma {:induction false} ArgsRound(args: seq<Arg>, style: Style, rest: Tokens)
    requires ArgsPrintable(args)
    ensures ParseArgs(PrintArgs(args, style, rest)) == Parsed(args, rest)
    decreases args, 1
  {
    hide Put, Word, ParseSomeArgs;
    if args != [] {
      SomeArgsRound(args, style, rest);
      ArgsBegin(args, style, rest);
    }
  }

  lemma ArgsBegin(args: seq<Arg>, style: Style, rest: Tokens)
    requires args != [] && ArgsPrintable(args)
    ensures BeginsExpr(Head(PrintSomeArgs(args, style, rest)))
  {
    hide Put, Word;
    FirstToken(args[0].value, style, if |args| == 1 then Put(RParen, style, rest) else Put(Comma, style, PrintSomeArgs(args[1..], style, rest)));
  }

  lemma {:induction false} SomeArgsRound(args: seq<Arg>, style: Style, rest: Tokens)
    requires args != [] && ArgsPrintable(args)
    ensures ParseSomeArgs(PrintSomeArgs(args, style, rest)) == Parsed(args, rest)
    decreases args, 0
  {
    hide Put, Word, ParseExpr, Print, Printable, ParseSomeArgs, ParseArg;
    assert args[0].value < args[0];
    var tail := if |args| == 1 then Put(RParen, style, rest) else Put(Comma, style, PrintSomeArgs(args[1..], style, rest));
    var value := Print(args[0].value, style, tail);
    EndsStop(args[0].value, tail);
    ExprRound(args[0].value, style, tail);
    NotNamed(args[0].value, style, tail);
    if |args| > 1 { SomeArgsRound(args[1..], style, rest); }
    ArgParsed(args[0], style, value, tail);
    ArgsParsed(PrintSomeArgs(args, style, rest), args[0], tail, args[1..], rest);
    assert args == [args[0]] + args[1..];
  }

  /** What ParseArg returns, given what ParseExpr does. */
  lemma ArgParsed(arg: Arg, style: Style, value: Tokens, tail: Tokens)
    requires ParseExpr(value) == Parsed(arg.value, tail)
    requires value != [] && !(value[0].typ == Identifier && Head(value[1..]) == Equal)
    ensures ParseArg(if arg.argName.Some? then Word(arg.argName.value, Put(Equal, style, value)) else value) == Parsed(arg, tail)
  {
    hide Put, Word, ParseExpr;
    if arg.argName.Some? {
      var ts := Word(arg.argName.value, Put(Equal, style, value));
      assert ts[1..] == Put(Equal, style, value) && ts[2..] == value;
    }
  }

  lemma ArgsParsed(ts: Tokens, arg: Arg, tail: Tokens, args: seq<Arg>, rest: Tokens)
    requires ParseArg(ts) == Parsed(arg, tail)
    requires if args == [] then Starts(tail, RParen) && tail[1..] == rest
             else Starts(tail, Comma) && ParseSomeArgs(tail[1..]) == Parsed(args, rest)
    ensures ParseSomeArgs(ts) == Parsed([arg] + args, rest)
  {
    hide ParseArg;
    assert args == [] ==> [arg] + args == [arg];
  }
}
