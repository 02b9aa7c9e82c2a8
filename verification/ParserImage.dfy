/** The printable trees are exactly the trees the parser builds: whatever tokens it accepts. */
module ParserImage {
  import opened Lexer
  import opened Syntax
  import opened Parser
  import opened Printer
  import opened ParserRoundTrip
  import opened Programs
  import opened ProgramRoundTrip

  /** Only something that ends by itself stops where another argument list or stage begins. */
  lemma StopIsContinuable(e: Expr, rest: Tokens)
    requires CallStops(e, rest) && Continues(rest)
    ensures Continuable(e)
  {
    if e.Lambda? { StopsEarly(e.body, rest); }
  }

  lemma {:induction false} ExprIsPrintable(ts: Tokens)
    requires ParseExpr(ts).Parsed?
    ensures Printable(ParseExpr(ts).value) && Stops(ParseExpr(ts).value, ParseExpr(ts).rest)
    decreases |ts|, 9
  {
    hide ParseIf, ParsePipe, ParseBlock, ParseArms, Continues;
    match Head(ts)
    case IfKeyword => IfIsPrintable(ts);
    case WhileKeyword =>
      ExprIsPrintable(ts[1..]);
      BlockIsPrintable(ParseExpr(ts[1..]).rest);
    case MatchKeyword =>
      ExprIsPrintable(ts[1..]);
      ArmsArePrintable(ParseExpr(ts[1..]).rest[1..]);
    case AsyncKeyword => BlockIsPrintable(ts[1..]);
    case AwaitKeyword => ExprIsPrintable(ts[1..]);
    case Bang => ExprIsPrintable(ts[1..]);
    case _ => PipeIsPrintable(ts);
  }

  lemma {:induction false} IfIsPrintable(ts: Tokens)
    requires Starts(ts, IfKeyword) && ParseIf(ts).Parsed?
    ensures Printable(ParseIf(ts).value) && ParseIf(ts).value.If? && Stops(ParseIf(ts).value, ParseIf(ts).rest)
    decreases |ts|, 8
  {
    hide ParseExpr, ParseBlock;
    ExprIsPrintable(ts[1..]);
    var block := ParseExpr(ts[1..]).rest;
    BlockIsPrintable(block);
    var tail := ParseBlock(block).rest;
    if Starts(tail, ElseKeyword) {
      if Starts(tail[1..], IfKeyword) {
        ElseIfIsPrintable(tail[1..]);
      } else {
        BlockIsPrintable(tail[1..]);
      }
    }
  }

  lemma {:induction false} ElseIfIsPrintable(ts: Tokens)
    requires Starts(ts, IfKeyword) && ParseExpr(ts).Parsed?
    ensures Printable(ParseExpr(ts).value) && ParseExpr(ts).value.If? && Stops(ParseExpr(ts).value, ParseExpr(ts).rest)
    decreases |ts|, 10
  {
    hide ParseIf;
    IfIsPrintable(ts);
  }

  lemma {:induction false} BlockIsPrintable(ts: Tokens)
    requires ParseBlock(ts).Parsed?
    ensures Printable(ParseBlock(ts).value) && ParseBlock(ts).value.Block?
    decreases |ts|, 4
  {
    ItemsArePrintable(ts[1..]);
  }

  lemma {:induction false} ItemsArePrintable(ts: Tokens)
    requires ParseItems(ts).Parsed?
    ensures AllPrintable(ParseItems(ts).value)
    decreases |ts|, 10
  {
    hide ParseExpr;
    if !Starts(ts, RBrace) {
      ExprIsPrintable(ts);
      ItemsArePrintable(SkipSemicolon(ParseExpr(ts).rest));
    }
  }

  lemma {:induction false} ArmsArePrintable(ts: Tokens)
    requires ParseArms(ts).Parsed?
    ensures ArmsPrintable(ParseArms(ts).value)
    decreases |ts|, 10
  {
    hide ParseExpr, ParseParams;
    if !Starts(ts, RBrace) {
      var bindings := if Starts(ts[1..], LParen) then ParseParams(ts[2..]) else Parsed([], ts[1..]);
      ExprIsPrintable(bindings.rest[1..]);
      ArmsArePrintable(SkipSemicolon(ParseArm(ts).rest));
    }
  }

  lemma {:induction false} PipeIsPrintable(ts: Tokens)
    requires ParsePipe(ts).Parsed?
    ensures Printable(ParsePipe(ts).value) && Stops(ParsePipe(ts).value, ParsePipe(ts).rest)
    decreases |ts|, 7
  {
    hide ParseCall, CallStops;
    CallIsPrintable(ts);
    var rest := ParseCall(ts).rest;
    if Starts(rest, PipeOperator) {
      StopIsContinuable(ParseCall(ts).value, rest);
      StagesArePrintable(rest[1..]);
    }
  }

  lemma {:induction false} StagesArePrintable(ts: Tokens)
    requires ParseStages(ts).Parsed?
    ensures var stages := ParseStages(ts).value;
      && stages != [] && StagesPrintable(stages) && !Continues(ParseStages(ts).rest)
      && CallStops(stages[|stages| - 1], ParseStages(ts).rest)
    decreases |ts|, 7
  {
    hide ParseCall, CallStops;
    CallIsPrintable(ts);
    var rest := ParseCall(ts).rest;
    if Starts(rest, PipeOperator) {
      StopIsContinuable(ParseCall(ts).value, rest);
      StagesArePrintable(rest[1..]);
    }
  }

  lemma {:induction false} CallIsPrintable(ts: Tokens)
    requires ParseCall(ts).Parsed?
    ensures var r := ParseCall(ts);
            && Printable(r.value) && CallLevel(r.value) && Head(r.rest) != LParen
            && CallStops(r.value, r.rest)
    decreases |ts|, 6
  {
    hide ParsePrimary;
    PrimaryIsPrintable(ts);
    CallsArePrintable(ParsePrimary(ts).value, ParsePrimary(ts).rest);
  }

  lemma {:induction false} CallsArePrintable(callee: Expr, ts: Tokens)
    requires ParseCalls(callee, ts).Parsed?
    requires Printable(callee) && CallLevel(callee) && CallStops(callee, ts)
    ensures var r := ParseCalls(callee, ts);
            && Printable(r.value) && CallLevel(r.value) && Head(r.rest) != LParen
            && CallStops(r.value, r.rest)
    decreases |ts|, 1
  {
    hide ParseArgs;
    if Starts(ts, LParen) {
      StopIsContinuable(callee, ts);
      ArgsArePrintable(ts[1..]);
      var r := ParseArgs(ts[1..]);
      CallsArePrintable(Call(callee, r.value), r.rest);
    }
  }

  lemma {:induction false} ArgsArePrintable(ts: Tokens)
    requires ParseArgs(ts).Parsed?
    ensures ArgsPrintable(ParseArgs(ts).value)
    decreases |ts|, 11
  {
    if !Starts(ts, RParen) { SomeArgsArePrintable(ts); }
  }

  lemma {:induction false} SomeArgsArePrintable(ts: Tokens)
    requires ParseSomeArgs(ts).Parsed?
    ensures ArgsPrintable(ParseSomeArgs(ts).value)
    decreases |ts|, 10
  {
    hide ParseExpr;
    ExprIsPrintable(if Starts(ts, Identifier) && Starts(ts[1..], Equal) then ts[2..] else ts);
    var first := ParseArg(ts);
    var args := ParseSomeArgs(ts).value;
    assert args[0] == first.value;
    if Starts(first.rest, Comma) {
      SomeArgsArePrintable(first.rest[1..]);
      assert args[1..] == ParseSomeArgs(first.rest[1..]).value;
    } else {
      assert args[1..] == [];
    }
  }

  lemma {:induction false} ElementsArePrintable(ts: Tokens)
    requires ParseElements(ts).Parsed?
    ensures AllPrintable(ParseElements(ts).value)
    decreases |ts|, 10
  {
    hide ParseExpr;
    ExprIsPrintable(ts);
    var rest := ParseExpr(ts).rest;
    if Starts(rest, Comma) { ElementsArePrintable(rest[1..]); }
  }

  lemma {:induction false} CallsAreCalls(callee: Expr, ts: Tokens)
    requires Starts(ts, LParen) && ParseCalls(callee, ts).Parsed?
    ensures ParseCalls(callee, ts).value.Call?
    decreases |ts|
  {
    hide ParseArgs;
    var r := ParseArgs(ts[1..]);
    if Starts(r.rest, LParen) { CallsAreCalls(Call(callee, r.value), r.rest); }
  }

  lemma NameIsOneToken(ts: Tokens)
    requires ParseExpr(ts).Parsed? && ParseExpr(ts).value.Ident?
    ensures Starts(ts, Identifier) && ParseExpr(ts).rest == ts[1..]
  {
    hide ParseCalls, ParseBlock, ParseList, ParseLambda, ParseArms, ParseStages;
    assert ParseExpr(ts) == ParsePipe(ts) && ParseCall(ts) == ParsePipe(ts);
    var first := ParsePrimary(ts);
    if Starts(first.rest, LParen) { CallsAreCalls(first.value, first.rest); }
    assert ParseCall(ts) == first by { CallsEnd(first.value, first.rest); }
    NameIsPrimary(ts);
  }

  lemma CallsEnd(callee: Expr, ts: Tokens)
    ensures !Starts(ts, LParen) ==> ParseCalls(callee, ts) == Parsed(callee, ts)
  {
  }

  lemma NameIsPrimary(ts: Tokens)
    requires ParsePrimary(ts).Parsed? && ParsePrimary(ts).value.Ident?
    ensures Starts(ts, Identifier) && ParsePrimary(ts).rest == ts[1..]
  {
    hide ParseExpr, ParseItems, ParseElements, ParseParams, SkipParams;
  }

  /** What stands behind a name in parentheses is no arrow, or it would have been a lambda. */
  lemma ParenStops(ts: Tokens)
    requires Starts(ts, LParen) && !LookaheadLambda(ts) && ParseExpr(ts[1..]).Parsed? && Starts(ParseExpr(ts[1..]).rest, RParen)
    ensures CallStops(Paren(ParseExpr(ts[1..]).value), ParseExpr(ts[1..]).rest[1..])
  {
    hide ParseExpr;
    if ParseExpr(ts[1..]).value.Ident? {
      NameIsOneToken(ts[1..]);
      assert SkipParams(ts[1..][1..]) == Some(ts[1..][1..][1..]);
    }
  }

  lemma {:induction false} PrimaryIsPrintable(ts: Tokens)
    requires ParsePrimary(ts).Parsed?
    ensures var r := ParsePrimary(ts);
            Printable(r.value) && CallLevel(r.value) && CallStops(r.value, r.rest)
    decreases |ts|, 5
  {
    hide ParseExpr, ParseBlock, SkipParams, ParseParams, ParseElements, LookaheadLambda;
    if LookaheadLambda(ts) {
      ExprIsPrintable(ParseParams(ts[1..]).rest[1..]);
    } else {
      match Head(ts)
      case LParen =>
        ExprIsPrintable(ts[1..]);
        ParenStops(ts);
      case LBrace => BlockIsPrintable(ts);
      case LBracket => if !Starts(ts[1..], RBracket) { ElementsArePrintable(ts[1..]); }
      case _ =>
    }
  }

  /** A tree is printable exactly when the parser builds it from some tokens. */
  lemma PrintableIffParsed(e: Expr)
    ensures Printable(e) <==> exists ts, rest :: ParseExpr(ts) == Parsed(e, rest)
  {
    if Printable(e) {
      EndsStop(e, []);
      ExprRound(e, Plain, []);
      assert ParseExpr(Print(e, Plain, [])) == Parsed(e, []);
    }
    if ts, rest :| ParseExpr(ts) == Parsed(e, rest) {
      ExprIsPrintable(ts);
    }
  }

  // ----- programs -----

  lemma {:induction false} PathIsNonempty(ts: Tokens)
    requires ParsePath(ts).Parsed?
    ensures ParsePath(ts).value != []
  {
  }

  lemma {:induction false} ImportsArePrintable(ts: Tokens)
    requires ParseImports(ts).Parsed?
    ensures forall i :: 0 <= i < |ParseImports(ts).value| ==> ParseImports(ts).value[i].path != []
    decreases |ts|
  {
    hide ParsePath, ParseSymbols;
    if Starts(ts, ImportKeyword) {
      PathIsNonempty(ts[1..]);
      ImportsArePrintable(ParseImport(ts).rest);
    }
  }

  lemma DeclIsPrintable(ts: Tokens)
    requires ParseDecl(ts).Parsed?
    ensures PrintableDecl(ParseDecl(ts).value)
  {
    hide ParseExpr, ParseParams, ParseVariant, Printable;
    match Head(ts)
    case LetKeyword => ExprIsPrintable(ParseAnnotation(ts[2..]).rest);
    case FunKeyword => ExprIsPrintable(ParseAnnotation(ParseParams(ts[3..]).rest).rest);
    case _ =>
  }

  lemma {:induction false} DeclsArePrintable(ts: Tokens)
    requires ParseDecls(ts).Parsed?
    ensures forall i :: 0 <= i < |ParseDecls(ts).value| ==> PrintableDecl(ParseDecls(ts).value[i])
    ensures Head(ParseDecls(ts).rest) == Eof
    decreases |ts|
  {
    hide ParseDecl, PrintableDecl;
    if Head(ts) != Eof {
      DeclIsPrintable(ts);
      DeclsArePrintable(ParseDecl(ts).rest);
    }
  }

  /** A program is printable exactly when the parser builds it from some tokens without an error. */
  lemma PrintableProgramIffParsed(p: Program)
    ensures PrintableProgram(p) <==> exists ts, rest :: ParseProgram(ts) == Parsed(p, rest)
  {
    hide ParsePath, ParseImports, ParseDecls, PrintProgram;
    if PrintableProgram(p) {
      ProgramRound(p, Plain, End);
      assert ParseProgram(PrintProgram(p, Plain, End)) == Parsed(p, End);
    }
    if ts, rest :| ParseProgram(ts) == Parsed(p, rest) {
      PathIsNonempty(ts[1..]);
      var imports := ParsePath(ts[1..]).rest;
      ImportsArePrintable(imports);
      DeclsArePrintable(ParseImports(imports).rest);
    }
  }
}
