/** The formatter is only run on programs the parser accepts, and on those it is always right: the
    parser accepts no `=>` and no point behind a number, so formatting keeps every token. */
module AcceptedTokens {
  import opened Lexer
  import opened Syntax
  import opened Parser
  import opened Programs
  import opened Formatter
  import opened FormatterRoundTrip
  import opened LexerSpelling
  import opened PrintedSpelling
  import opened Printer
  import opened ProgramRoundTrip

  /** Up to the end there is no error, no `=>` and no point behind a number without one. */
  predicate Tidy(ts: Tokens) {
    Head(ts) == Eof
    || (ts[0].typ != ArrowFn && ts[0].typ != ErrorToken && (Dotless(ts[0]) ==> Head(ts[1..]) != Dot) && Tidy(ts[1..]))
  }

  predicate TidyFrom(ts: Tokens) {
    Tidy(ts) && Head(ts) != Dot
  }

  lemma OneMore(ts: Tokens)
    requires ts != [] && Tidy(ts[1..])
    requires ts[0].typ != ArrowFn && ts[0].typ != ErrorToken && (ts[0].typ == NumberToken ==> Head(ts[1..]) != Dot)
    ensures Tidy(ts)
  {
  }

  // ----- parameters -----

  lemma ParamTidy(ts: Tokens)
    requires ParseParam(ts).Parsed? && Tidy(ParseParam(ts).rest)
    ensures TidyFrom(ts)
  {
    hide Tidy;
    if Starts(ts[1..], Colon) {
      assert ts[2..][1..] == ts[3..] && ts[1..][1..] == ts[2..];
      OneMore(ts[2..]);
      OneMore(ts[1..]);
    }
    OneMore(ts);
  }

  lemma {:induction false} SomeParamsTidy(ts: Tokens)
    requires ParseSomeParams(ts).Parsed? && Tidy(ParseSomeParams(ts).rest)
    ensures TidyFrom(ts)
    decreases |ts|
  {
    hide Tidy, ParseParam;
    var rest := ParseParam(ts).rest;
    if Starts(rest, Comma) { SomeParamsTidy(rest[1..]); }
    OneMore(rest);
    ParamTidy(ts);
  }

  lemma ParamsTidy(ts: Tokens)
    requires ParseParams(ts).Parsed? && Tidy(ParseParams(ts).rest)
    ensures TidyFrom(ts)
  {
    hide Tidy;
    if Starts(ts, RParen) { OneMore(ts); } else { SomeParamsTidy(ts); }
  }

  // ----- expressions -----

  lemma {:induction false} ExprTidy(ts: Tokens)
    requires ParseExpr(ts).Parsed? && TidyFrom(ParseExpr(ts).rest)
    ensures TidyFrom(ts)
    decreases |ts|, 9
  {
    hide ParseIf, ParsePipe, ParseBlock, ParseArms, Tidy;
    match Head(ts)
    case IfKeyword => IfTidy(ts);
    case WhileKeyword =>
      BlockTidy(ParseExpr(ts[1..]).rest);
      ExprTidy(ts[1..]);
      OneMore(ts);
    case MatchKeyword =>
      var rest := ParseExpr(ts[1..]).rest;
      ArmsTidy(rest[1..]);
      OneMore(rest);
      ExprTidy(ts[1..]);
      OneMore(ts);
    case AsyncKeyword =>
      BlockTidy(ts[1..]);
      OneMore(ts);
    case AwaitKeyword =>
      ExprTidy(ts[1..]);
      OneMore(ts);
    case Bang =>
      ExprTidy(ts[1..]);
      OneMore(ts);
    case _ => PipeTidy(ts);
  }

  lemma {:induction false} IfTidy(ts: Tokens)
    requires Starts(ts, IfKeyword) && ParseIf(ts).Parsed? && TidyFrom(ParseIf(ts).rest)
    ensures TidyFrom(ts)
    decreases |ts|, 8
  {
    hide ParseExpr, ParseBlock, Tidy;
    var block := ParseExpr(ts[1..]).rest;
    var tail := ParseBlock(block).rest;
    if Starts(tail, ElseKeyword) {
      if Starts(tail[1..], IfKeyword) { ExprTidy(tail[1..]); } else { BlockTidy(tail[1..]); }
      OneMore(tail);
    }
    BlockTidy(block);
    ExprTidy(ts[1..]);
    OneMore(ts);
  }

  lemma {:induction false} BlockTidy(ts: Tokens)
    requires ParseBlock(ts).Parsed? && Tidy(ParseBlock(ts).rest)
    ensures TidyFrom(ts)
    decreases |ts|, 4
  {
    hide Tidy, ParseItems;
    ItemsTidy(ts[1..]);
    OneMore(ts);
  }

  lemma SemicolonTidy(ts: Tokens)
    requires TidyFrom(SkipSemicolon(ts))
    ensures TidyFrom(ts)
  {
  }

  lemma {:induction false} ItemsTidy(ts: Tokens)
    requires ParseItems(ts).Parsed? && Tidy(ParseItems(ts).rest)
    ensures TidyFrom(ts)
    decreases |ts|, 10
  {
    hide Tidy, ParseExpr;
    if Starts(ts, RBrace) {
      OneMore(ts);
    } else {
      var rest := ParseExpr(ts).rest;
      ItemsTidy(SkipSemicolon(rest));
      SemicolonTidy(rest);
      ExprTidy(ts);
    }
  }

  lemma {:induction false} ArmTidy(ts: Tokens)
    requires ParseArm(ts).Parsed? && TidyFrom(ParseArm(ts).rest)
    ensures TidyFrom(ts)
    decreases |ts|, 9
  {
    hide Tidy, ParseExpr, ParseParams;
    var rest := if Starts(ts[1..], LParen) then ParseParams(ts[2..]).rest else ts[1..];
    ExprTidy(rest[1..]);
    OneMore(rest);
    if Starts(ts[1..], LParen) {
      ParamsTidy(ts[2..]);
      assert ts[1..][1..] == ts[2..];
      OneMore(ts[1..]);
    }
    OneMore(ts);
  }

  lemma {:induction false} ArmsTidy(ts: Tokens)
    requires ParseArms(ts).Parsed? && Tidy(ParseArms(ts).rest)
    ensures TidyFrom(ts)
    decreases |ts|, 10
  {
    hide Tidy, ParseArm;
    if Starts(ts, RBrace) {
      OneMore(ts);
    } else {
      var rest := ParseArm(ts).rest;
      ArmsTidy(SkipSemicolon(rest));
      SemicolonTidy(rest);
      ArmTidy(ts);
    }
  }

  lemma {:induction false} PipeTidy(ts: Tokens)
    requires ParsePipe(ts).Parsed? && TidyFrom(ParsePipe(ts).rest)
    ensures TidyFrom(ts)
    decreases |ts|, 7
  {
    hide Tidy, ParseCall;
    var rest := ParseCall(ts).rest;
    if Starts(rest, PipeOperator) {
      StagesTidy(rest[1..]);
      OneMore(rest);
    }
    CallTidy(ts);
  }

  lemma {:induction false} StagesTidy(ts: Tokens)
    requires ParseStages(ts).Parsed? && TidyFrom(ParseStages(ts).rest)
    ensures TidyFrom(ts)
    decreases |ts|, 7
  {
    hide Tidy, ParseCall;
    var rest := ParseCall(ts).rest;
    if Starts(rest, PipeOperator) {
      StagesTidy(rest[1..]);
      OneMore(rest);
    }
    CallTidy(ts);
  }

  lemma {:induction false} CallTidy(ts: Tokens)
    requires ParseCall(ts).Parsed? && TidyFrom(ParseCall(ts).rest)
    ensures TidyFrom(ts)
    decreases |ts|, 6
  {
    hide Tidy, ParsePrimary, ParseCalls;
    CallsTidy(ParsePrimary(ts).value, ParsePrimary(ts).rest);
    PrimaryTidy(ts);
  }

  lemma {:induction false} CallsTidy(callee: Expr, ts: Tokens)
    requires ParseCalls(callee, ts).Parsed? && TidyFrom(ParseCalls(callee, ts).rest)
    ensures TidyFrom(ts)
    decreases |ts|, 1
  {
    hide Tidy, ParseArgs;
    if Starts(ts, LParen) {
      var r := ParseArgs(ts[1..]);
      CallsTidy(Call(callee, r.value), r.rest);
      ArgsTidy(ts[1..]);
      OneMore(ts);
    }
  }

  lemma {:induction false} ArgsTidy(ts: Tokens)
    requires ParseArgs(ts).Parsed? && Tidy(ParseArgs(ts).rest)
    ensures TidyFrom(ts)
    decreases |ts|, 12
  {
    hide Tidy, ParseSomeArgs;
    if Starts(ts, RParen) { OneMore(ts); } else { SomeArgsTidy(ts); }
  }

  lemma {:induction false} SomeArgsTidy(ts: Tokens)
    requires ParseSomeArgs(ts).Parsed? && Tidy(ParseSomeArgs(ts).rest)
    ensures TidyFrom(ts)
    decreases |ts|, 11
  {
    hide Tidy, ParseArg;
    var rest := ParseArg(ts).rest;
    if Starts(rest, Comma) { SomeArgsTidy(rest[1..]); }
    OneMore(rest);
    ArgTidy(ts);
  }

  lemma {:induction false} ArgTidy(ts: Tokens)
    requires ParseArg(ts).Parsed? && TidyFrom(ParseArg(ts).rest)
    ensures TidyFrom(ts)
    decreases |ts|, 10
  {
    hide Tidy, ParseExpr;
    if Starts(ts, Identifier) && Starts(ts[1..], Equal) {
      ExprTidy(ts[2..]);
      assert ts[1..][1..] == ts[2..];
      OneMore(ts[1..]);
      OneMore(ts);
    } else {
      ExprTidy(ts);
    }
  }

  lemma {:induction false} ElementsTidy(ts: Tokens)
    requires ParseElements(ts).Parsed? && Tidy(ParseElements(ts).rest)
    ensures TidyFrom(ts)
    decreases |ts|, 10
  {
    hide Tidy, ParseExpr;
    var rest := ParseExpr(ts).rest;
    if Starts(rest, Comma) { ElementsTidy(rest[1..]); }
    OneMore(rest);
    ExprTidy(ts);
  }

  lemma {:induction false} LambdaTidy(ts: Tokens)
    requires Starts(ts, LParen) && ParseLambda(ts).Parsed? && TidyFrom(ParseLambda(ts).rest)
    ensures TidyFrom(ts)
    decreases |ts|, 2
  {
    hide Tidy, ParseExpr, ParseParams;
    var rest := ParseParams(ts[1..]).rest;
    ExprTidy(rest[1..]);
    OneMore(rest);
    ParamsTidy(ts[1..]);
    OneMore(ts);
  }

  lemma {:induction false} PrimaryTidy(ts: Tokens)
    requires ParsePrimary(ts).Parsed? && TidyFrom(ParsePrimary(ts).rest)
    ensures TidyFrom(ts)
    decreases |ts|, 5
  {
    hide Tidy, ParseExpr, ParseBlock, ParseElements, ParseLambda, SkipParams;
    if LookaheadLambda(ts) {
      LambdaTidy(ts);
    } else {
      if Head(ts) == LParen {
        OneMore(ParseExpr(ts[1..]).rest);
        ExprTidy(ts[1..]);
        OneMore(ts);
      } else if Head(ts) == LBrace {
        BlockTidy(ts);
      } else if Head(ts) == LBracket {
        if Starts(ts[1..], RBracket) {
          assert ts[1..][1..] == ts[2..];
          OneMore(ts[1..]);
        } else {
          ElementsTidy(ts[1..]);
        }
        OneMore(ts);
      } else {
        OneMore(ts);
      }
    }
  }

  // ----- programs -----

  lemma {:induction false} PathTidy(ts: Tokens)
    requires ParsePath(ts).Parsed? && Tidy(ParsePath(ts).rest)
    ensures TidyFrom(ts)
    decreases |ts|
  {
    hide Tidy;
    if Starts(ts[1..], Dot) {
      PathTidy(ts[2..]);
      assert ts[1..][1..] == ts[2..];
      OneMore(ts[1..]);
    }
    OneMore(ts);
  }

  lemma {:induction false} SymbolsTidy(ts: Tokens)
    requires ParseSymbols(ts).Parsed? && Tidy(ParseSymbols(ts).rest)
    ensures TidyFrom(ts)
    decreases |ts|
  {
    hide Tidy;
    if !Starts(ts, RBrace) {
      if Starts(ts[1..], Comma) { SymbolsTidy(ts[2..]); }
      assert ts[1..][1..] == ts[2..];
      OneMore(ts[1..]);
    }
    OneMore(ts);
  }

  lemma ImportTidy(ts: Tokens)
    requires Starts(ts, ImportKeyword) && ParseImport(ts).Parsed? && TidyFrom(ParseImport(ts).rest)
    ensures TidyFrom(ts)
  {
    hide Tidy, ParsePath, ParseSymbols;
    var rest := ParsePath(ts[1..]).rest;
    if Starts(rest, LBrace) {
      SymbolsTidy(rest[1..]);
      OneMore(rest);
    }
    PathTidy(ts[1..]);
    OneMore(ts);
  }

  lemma {:induction false} ImportsTidy(ts: Tokens)
    requires ParseImports(ts).Parsed? && TidyFrom(ParseImports(ts).rest)
    ensures TidyFrom(ts)
    decreases |ts|
  {
    hide Tidy, ParseImport;
    if Starts(ts, ImportKeyword) {
      ImportsTidy(ParseImport(ts).rest);
      ImportTidy(ts);
    }
  }

  lemma AnnotationTidy(ts: Tokens)
    requires ParseAnnotation(ts).Parsed? && Tidy(ParseAnnotation(ts).rest)
    ensures TidyFrom(ts)
  {
    hide Tidy;
    if Starts(ts, Colon) {
      assert ts[2..][1..] == ts[3..] && ts[1..][1..] == ts[2..];
      OneMore(ts[2..]);
      OneMore(ts[1..]);
    }
    OneMore(ts);
  }

  lemma VariantTidy(ts: Tokens)
    requires ParseVariant(ts).Parsed? && Tidy(ParseVariant(ts).rest)
    ensures TidyFrom(ts)
  {
    hide Tidy, ParseParams;
    if Starts(ts[1..], LParen) {
      ParamsTidy(ts[2..]);
      assert ts[1..][1..] == ts[2..];
      OneMore(ts[1..]);
    }
    OneMore(ts);
  }

  lemma {:induction false} VariantsTidy(ts: Tokens)
    requires ParseVariants(ts).Parsed? && Tidy(ParseVariants(ts).rest)
    ensures TidyFrom(ts)
    decreases |ts|
  {
    hide Tidy, ParseVariant;
    var rest := ParseVariant(ts).rest;
    if Starts(rest, Bar) {
      VariantsTidy(rest[1..]);
      OneMore(rest);
    }
    VariantTidy(ts);
  }

  /** A keyword, a name, and perhaps a third token in front of what is known to be tidy. */
  lemma HeaderTidy(ts: Tokens, n: nat)
    requires n == 2 || n == 3
    requires n <= |ts| && Tidy(ts[n..])
    requires forall i :: 0 <= i < n ==> ts[i].typ != ArrowFn && ts[i].typ != ErrorToken && ts[i].typ != NumberToken
    ensures Tidy(ts)
  {
    hide Tidy;
    assert ts[1..][1..] == ts[2..];
    if n == 3 {
      assert ts[2..][1..] == ts[3..];
      OneMore(ts[2..]);
    }
    OneMore(ts[1..]);
    OneMore(ts);
  }

  lemma DeclTidy(ts: Tokens)
    requires ParseDecl(ts).Parsed? && TidyFrom(ParseDecl(ts).rest)
    ensures TidyFrom(ts)
  {
    hide Tidy, ParseLet, ParseFun, ParseType;
    if Head(ts) == LetKeyword {
      LetTidy(ts);
    } else if Head(ts) == FunKeyword {
      FunTidy(ts);
    } else {
      TypeTidy(ts);
    }
  }

  lemma LetTidy(ts: Tokens)
    requires Starts(ts, LetKeyword) && ParseLet(ts).Parsed? && TidyFrom(ParseLet(ts).rest)
    ensures TidyFrom(ts)
  {
    hide Tidy, ParseExpr, ParseAnnotation;
    ExprTidy(ParseAnnotation(ts[2..]).rest);
    AnnotationTidy(ts[2..]);
    HeaderTidy(ts, 2);
  }

  lemma FunTidy(ts: Tokens)
    requires Starts(ts, FunKeyword) && ParseFun(ts).Parsed? && TidyFrom(ParseFun(ts).rest)
    ensures TidyFrom(ts)
  {
    hide Tidy, ParseExpr, ParseParams, ParseAnnotation;
    var rest := ParseParams(ts[3..]).rest;
    ExprTidy(ParseAnnotation(rest).rest);
    AnnotationTidy(rest);
    ParamsTidy(ts[3..]);
    HeaderTidy(ts, 3);
  }

  lemma TypeTidy(ts: Tokens)
    requires Starts(ts, TypeKeyword) && ParseType(ts).Parsed? && TidyFrom(ParseType(ts).rest)
    ensures TidyFrom(ts)
  {
    hide Tidy, ParseParams, ParseVariants;
    var body := ts[2..];
    if Starts(body, Equal) { VariantsTidy(body[1..]); } else { ParamsTidy(body[1..]); }
    OneMore(body);
    HeaderTidy(ts, 2);
  }

  lemma {:induction false} DeclsTidy(ts: Tokens)
    requires ParseDecls(ts).Parsed?
    ensures TidyFrom(ts)
    decreases |ts|
  {
    hide ParseDecl;
    if Head(ts) != Eof {
      DeclsTidy(ParseDecl(ts).rest);
      DeclTidy(ts);
    }
  }

  lemma ProgramTidy(ts: Tokens)
    requires ParseProgram(ts).Parsed?
    ensures Tidy(ts)
  {
    hide Tidy, ParsePath, ParseImports, ParseDecls;
    var path := ParsePath(ts[1..]);
    var imports := ParseImports(path.rest);
    DeclsTidy(imports.rest);
    ImportsTidy(path.rest);
    PathTidy(ts[1..]);
    OneMore(ts);
  }

  // ----- the formatter on accepted programs -----

  lemma {:induction false} EofIsLast(s: string)
    ensures var ts := Lex(s);
            && (forall i :: 0 <= i < |ts| - 1 ==> ts[i].typ != Eof && ts[i].typ != ErrorToken)
            && (ts[|ts| - 1].typ == Eof || ts[|ts| - 1].typ == ErrorToken)
    decreases |s|
  {
    hide Scan, Lex;
    var rest := s[BlankLength(s)..];
    LexFrom(s, rest);
    if rest != [] && Scan(rest).typ != ErrorToken {
      var more := Lex(rest[Scan(rest).length..]);
      EofIsLast(rest[Scan(rest).length..]);
      assert forall i :: 0 < i < |Lex(s)| ==> Lex(s)[i] == more[i - 1];
    }
  }

  lemma {:induction false} TidyEverywhere(ts: Tokens)
    requires ts != [] && Tidy(ts) && forall i :: 0 <= i < |ts| - 1 ==> ts[i].typ != Eof
    ensures NoArrowFn(ts) && NoSplitNumber(ts) && ts[|ts| - 1].typ != ErrorToken
  {
    hide Dotless;
    if ts[0].typ != Eof && |ts| > 1 {
      var rest := ts[1..];
      assert forall i :: 0 <= i < |rest| ==> rest[i] == ts[i + 1];
      TidyEverywhere(rest);
      RestIff(ts, rest);
    }
  }

  /** Formatting a source that the parser accepts keeps all its tokens, and so the program. */
  lemma FormatterKeepsAcceptedPrograms(s: string)
    requires ParseProgram(Lex(s)).Parsed?
    ensures Lex(Format(Lex(s), Fresh)) == Lex(s)
    ensures ParseProgram(Lex(Format(Lex(s), Fresh))) == ParseProgram(Lex(s))
  {
    hide ParseProgram, Lex, Format, Tidy;
    var ts := Lex(s);
    ProgramTidy(ts);
    EofIsLast(s);
    TidyEverywhere(ts);
    assert Lexes(s);
    SourceRoundTrip(s);
  }

  lemma {:induction false} WellFormedInside(ts: Tokens, i: nat)
    requires WellFormed(ts) && i < |ts| - 1
    ensures ts[i].typ != Eof && ts[i].typ != ErrorToken
  {
    hide Scan;
    if i > 0 { WellFormedInside(ts[1..], i - 1); } else { LexemeOf(ts[0]); }
  }

  /** A program printed, formatted as text, lexed and parsed again is the same program, as long as its
      names are words that are no keywords and its literals are spelled as such. */
  lemma PrintedProgramsComeBack(p: Program, style: Style)
    requires PrintableProgram(p) && ProgramSpelled(p) && LexerSpells(style)
    ensures Lex(Format(PrintProgram(p, style, End), Fresh)) == PrintProgram(p, style, End)
    ensures ParseProgram(Lex(Format(PrintProgram(p, style, End), Fresh))) == Parsed(p, End)
  {
    hide ParseProgram, PrintProgram, PrintableProgram, ProgramSpelled, Lex, Format, Tidy, WellFormed, LexerSpells;
    var ts := PrintProgram(p, style, End);
    ProgramIsFormed(p, style);
    ProgramRound(p, style, End);
    ProgramTidy(ts);
    NonemptyTokens(ts);
    forall i | 0 <= i < |ts| - 1 ensures ts[i].typ != Eof { WellFormedInside(ts, i); }
    TidyEverywhere(ts);
    RoundTripIff(ts, Fresh);
  }

  lemma NonemptyTokens(ts: Tokens)
    ensures WellFormed(ts) ==> ts != []
  {
  }
}
