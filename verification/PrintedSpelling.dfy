/** The tokens of a tree are what the lexer can produce as soon as the tree's own names, numbers and
    strings are: keywords and marks are spelled right. */
module PrintedSpelling {
  import opened Lexer
  import opened Syntax
  import opened Parser
  import opened Printer
  import opened Programs
  import opened ProgramRoundTrip
  import opened FormatterRoundTrip
  import opened LexerSpelling

  /** Everything but names and literals as the lexer wants it. */
  ghost predicate LexerSpells(style: Style) {
    forall typ, n: nat :: style.spelling(typ, n) == Spelling(typ)
  }

  // ----- the names and literals of a tree -----

  ghost predicate OptionalName(name: Option<string>) {
    name.Some? ==> IsName(name.value)
  }

  ghost predicate ParamsSpelled(params: seq<Param>) {
    forall i :: 0 <= i < |params| ==> IsName(params[i].name) && OptionalName(params[i].typeName)
  }

  ghost predicate ExprSpelled(e: Expr)
    decreases e, 0
  {
    match e
    case Number(text) => IsNumeral(text)
    case Str(text) => IsText(text)
    case Bool(_) => true
    case UnitLiteral => true
    case ListLiteral(es) => AllSpelled(es)
    case Ident(x) => IsName(x)
    case Call(callee, args) => ExprSpelled(callee) && ArgsSpelled(args)
    case Pipe(target, stages) => ExprSpelled(target) && AllSpelled(stages)
    case If(c, yes, no) => ExprSpelled(c) && ExprSpelled(yes) && (no.Some? ==> ExprSpelled(no.value))
    case While(c, body) => ExprSpelled(c) && ExprSpelled(body)
    case Block(items) => AllSpelled(items)
    case Paren(inner) => ExprSpelled(inner)
    case Match(s, arms) => ExprSpelled(s) && ArmsSpelled(arms)
    case Async(inner) => ExprSpelled(inner)
    case Await(inner) => ExprSpelled(inner)
    case Effect(inner) => ExprSpelled(inner)
    case Lambda(params, body) => ParamsSpelled(params) && ExprSpelled(body)
  }

  ghost predicate AllSpelled(es: seq<Expr>)
    decreases es, 0
  {
    es == [] || (ExprSpelled(es[0]) && AllSpelled(es[1..]))
  }

  ghost predicate ArgsSpelled(args: seq<Arg>)
    decreases args, 0
  {
    args == [] || (assert args[0].value < args[0];
                   OptionalName(args[0].argName) && ExprSpelled(args[0].value) && ArgsSpelled(args[1..]))
  }

  ghost predicate ArmsSpelled(arms: seq<Arm>)
    decreases arms, 0
  {
    arms == []
    || (IsName(arms[0].name) && ParamsSpelled(arms[0].bindings) && ExprSpelled(arms[0].body) && ArmsSpelled(arms[1..]))
  }

  ghost predicate AllNames(names: seq<string>) {
    forall i :: 0 <= i < |names| ==> IsName(names[i])
  }

  ghost predicate VariantsSpelled(variants: seq<Variant>) {
    forall i :: 0 <= i < |variants| ==> IsName(variants[i].name) && ParamsSpelled(variants[i].payload)
  }

  ghost predicate DeclSpelled(d: Declaration) {
    IsName(d.name)
    && match d
       case LetDeclaration(_, typeName, value) => OptionalName(typeName) && ExprSpelled(value)
       case FunDeclaration(_, params, returnType, body) => ParamsSpelled(params) && OptionalName(returnType) && ExprSpelled(body)
       case SumDeclaration(_, variants) => VariantsSpelled(variants)
       case TupleDeclaration(_, fields) => ParamsSpelled(fields)
  }

  /** The names of the program are words that are no keywords, and its literals are spelled as such. */
  ghost predicate ProgramSpelled(p: Program) {
    && AllNames(p.path)
    && (forall i :: 0 <= i < |p.imports| ==> AllNames(p.imports[i].path) && AllNames(p.imports[i].symbols))
    && forall i :: 0 <= i < |p.decls| ==> DeclSpelled(p.decls[i])
  }

  // ----- their tokens -----

  lemma WordIsFormed(name: string, rest: Tokens)
    requires IsName(name) && WellFormed(rest)
    ensures WellFormed(Word(name, rest))
  {
    hide Lexable, IsName;
    NameIff(name);
  }

  lemma PutIsFormed(typ: TokenType, style: Style, rest: Tokens)
    requires LexerSpells(style) && Spelling(typ) != [] && WellFormed(rest)
    ensures WellFormed(Put(typ, style, rest))
  {
    hide Lexable;
    var t := Put(typ, style, rest)[0];
    MarkIffSpelled(t);
  }

  lemma ParamIsFormed(param: Param, style: Style, rest: Tokens)
    requires LexerSpells(style) && IsName(param.name) && OptionalName(param.typeName) && WellFormed(rest)
    ensures WellFormed(PrintParam(param, style, rest))
  {
    hide WellFormed, IsName, Word, Put, LexerSpells;
    if param.typeName.Some? {
      WordIsFormed(param.typeName.value, rest);
      PutIsFormed(Colon, style, Word(param.typeName.value, rest));
      WordIsFormed(param.name, Put(Colon, style, Word(param.typeName.value, rest)));
    } else {
      WordIsFormed(param.name, rest);
    }
  }

  lemma {:induction false} ParamsAreFormed(params: seq<Param>, style: Style, rest: Tokens)
    requires LexerSpells(style) && ParamsSpelled(params) && WellFormed(rest)
    ensures WellFormed(PrintParams(params, style, rest))
    decreases params
  {
    hide WellFormed, IsName, Put, LexerSpells, PrintParam, OptionalName;
    PutIsFormed(RParen, style, rest);
    if |params| > 1 {
      ParamsAreFormed(params[1..], style, rest);
      PutIsFormed(Comma, style, PrintSomeParams(params[1..], style, rest));
    }
    if params != [] {
      ParamIsFormed(params[0], style,
                    if |params| == 1 then Put(RParen, style, rest) else Put(Comma, style, PrintSomeParams(params[1..], style, rest)));
    }
  }

  lemma BindingsAreFormed(bindings: seq<Param>, style: Style, rest: Tokens)
    requires LexerSpells(style) && ParamsSpelled(bindings) && WellFormed(rest)
    ensures WellFormed(PrintBindings(bindings, style, rest))
  {
    hide WellFormed, ParamsSpelled, Put, LexerSpells, PrintParams;
    ParamsAreFormed(bindings, style, rest);
    PutIsFormed(LParen, style, PrintParams(bindings, style, rest));
  }

  lemma LiteralIsFormed(e: Expr, style: Style, rest: Tokens)
    requires LexerSpells(style) && (e.Number? || e.Str? || e.Bool?) && ExprSpelled(e) && WellFormed(rest)
    ensures WellFormed(Print(e, style, rest))
  {
    hide IsNumeral, IsText, Put, LexerSpells, Lexable;
    match e
    case Number(text) => NumeralIff(text);
    case Str(text) => TextIff(text);
    case Bool(b) => PutIsFormed(if b then TrueKeyword else FalseKeyword, style, rest);
  }

  lemma {:induction false} ExprIsFormed(e: Expr, style: Style, rest: Tokens)
    requires LexerSpells(style) && ExprSpelled(e) && WellFormed(rest)
    ensures WellFormed(Print(e, style, rest))
    decreases e, 1
  {
    hide WellFormed, Put, Word, LexerSpells, IsName, IsNumeral, IsText, ParamsSpelled, PrintParams;
    match e
    case Ident(x) => WordIsFormed(x, rest);
    case UnitLiteral =>
    case ListLiteral(es) =>
      ElementsAreFormed(es, style, rest);
      PutIsFormed(LBracket, style, PrintElements(es, style, rest));
    case Call(_, _) => CallIsFormed(e, style, rest);
    case Pipe(_, _) => CallIsFormed(e, style, rest);
    case If(_, _, _) => IfIsFormed(e, style, rest);
    case Block(items) =>
      ItemsAreFormed(items, style, rest);
      PutIsFormed(LBrace, style, PrintItems(items, style, rest));
    case Paren(_) => ParenIsFormed(e, style, rest);
    case While(_, _) => WhileIsFormed(e, style, rest);
    case Match(_, _) => MatchIsFormed(e, style, rest);
    case Async(_) => PrefixIsFormed(e, style, rest);
    case Await(_) => PrefixIsFormed(e, style, rest);
    case Effect(_) => PrefixIsFormed(e, style, rest);
    case Lambda(_, _) => LambdaIsFormed(e, style, rest);
    case _ => LiteralIsFormed(e, style, rest);
  }

  lemma {:induction false} IfIsFormed(e: Expr, style: Style, rest: Tokens)
    requires e.If? && LexerSpells(style) && ExprSpelled(e) && WellFormed(rest)
    ensures WellFormed(Print(e, style, rest))
    decreases e, 0
  {
    hide WellFormed, Put, LexerSpells;
    var tail := rest;
    if e.elseBranch.Some? {
      ExprIsFormed(e.elseBranch.value, style, rest);
      tail := Put(ElseKeyword, style, Print(e.elseBranch.value, style, rest));
      PutIsFormed(ElseKeyword, style, Print(e.elseBranch.value, style, rest));
    }
    ExprIsFormed(e.thenBranch, style, tail);
    ExprIsFormed(e.cond, style, Print(e.thenBranch, style, tail));
    PutIsFormed(IfKeyword, style, Print(e.cond, style, Print(e.thenBranch, style, tail)));
  }

  lemma {:induction false} CallIsFormed(e: Expr, style: Style, rest: Tokens)
    requires (e.Call? || e.Pipe?) && LexerSpells(style) && ExprSpelled(e) && WellFormed(rest)
    ensures WellFormed(Print(e, style, rest))
    decreases e, 0
  {
    hide WellFormed, Put, LexerSpells, PrintArgs, PrintStages, AllSpelled, ArgsSpelled;
    if e.Call? {
      ArgsAreFormed(e.args, style, rest);
      PutIsFormed(LParen, style, PrintArgs(e.args, style, rest));
      ExprIsFormed(e.callee, style, Put(LParen, style, PrintArgs(e.args, style, rest)));
    } else {
      StagesAreFormed(e.stages, style, rest);
      ExprIsFormed(e.target, style, PrintStages(e.stages, style, rest));
    }
  }

  lemma {:induction false} ParenIsFormed(e: Expr, style: Style, rest: Tokens)
    requires e.Paren? && LexerSpells(style) && ExprSpelled(e) && WellFormed(rest)
    ensures WellFormed(Print(e, style, rest))
    decreases e, 0
  {
    hide WellFormed, Put, LexerSpells;
    PutIsFormed(RParen, style, rest);
    ExprIsFormed(e.inner, style, Put(RParen, style, rest));
    PutIsFormed(LParen, style, Print(e.inner, style, Put(RParen, style, rest)));
  }

  lemma {:induction false} LambdaIsFormed(e: Expr, style: Style, rest: Tokens)
    requires e.Lambda? && LexerSpells(style) && ExprSpelled(e) && WellFormed(rest)
    ensures WellFormed(Print(e, style, rest))
    decreases e, 0
  {
    hide WellFormed, Put, LexerSpells, ParamsSpelled, PrintParams;
    ExprIsFormed(e.body, style, rest);
    var tail := Put(Arrow, style, Print(e.body, style, rest));
    PutIsFormed(Arrow, style, Print(e.body, style, rest));
    ParamsAreFormed(e.params, style, tail);
    PutIsFormed(LParen, style, PrintParams(e.params, style, tail));
  }

  lemma {:induction false} MatchIsFormed(e: Expr, style: Style, rest: Tokens)
    requires e.Match? && LexerSpells(style) && ExprSpelled(e) && WellFormed(rest)
    ensures WellFormed(Print(e, style, rest))
    decreases e, 0
  {
    hide WellFormed, Put, LexerSpells, ArmsSpelled, PrintArms;
    ArmsAreFormed(e.arms, style, rest);
    var tail := Put(LBrace, style, PrintArms(e.arms, style, rest));
    PutIsFormed(LBrace, style, PrintArms(e.arms, style, rest));
    ExprIsFormed(e.scrutinee, style, tail);
    PutIsFormed(MatchKeyword, style, Print(e.scrutinee, style, tail));
  }

  lemma {:induction false} WhileIsFormed(e: Expr, style: Style, rest: Tokens)
    requires e.While? && LexerSpells(style) && ExprSpelled(e) && WellFormed(rest)
    ensures WellFormed(Print(e, style, rest))
    decreases e, 0
  {
    hide WellFormed, Put, LexerSpells;
    ExprIsFormed(e.body, style, rest);
    ExprIsFormed(e.cond, style, Print(e.body, style, rest));
    PutIsFormed(WhileKeyword, style, Print(e.cond, style, Print(e.body, style, rest)));
  }

  lemma {:induction false} PrefixIsFormed(e: Expr, style: Style, rest: Tokens)
    requires (e.Async? || e.Await? || e.Effect?) && LexerSpells(style) && ExprSpelled(e) && WellFormed(rest)
    ensures WellFormed(Print(e, style, rest))
    decreases e, 0
  {
    hide WellFormed, Put, LexerSpells;
    ExprIsFormed(e.inner, style, rest);
    var typ := if e.Async? then AsyncKeyword else if e.Await? then AwaitKeyword else Bang;
    PutIsFormed(typ, style, Print(e.inner, style, rest));
  }

  lemma {:induction false} ElementsAreFormed(es: seq<Expr>, style: Style, rest: Tokens)
    requires LexerSpells(style) && AllSpelled(es) && WellFormed(rest)
    ensures WellFormed(PrintElements(es, style, rest))
    decreases es, 1
  {
    hide WellFormed, Put, LexerSpells, Print;
    PutIsFormed(RBracket, style, rest);
    if |es| > 1 {
      ElementsAreFormed(es[1..], style, rest);
      PutIsFormed(Comma, style, PrintSomeElements(es[1..], style, rest));
    }
    if es != [] {
      ExprIsFormed(es[0], style, if |es| == 1 then Put(RBracket, style, rest) else Put(Comma, style, PrintSomeElements(es[1..], style, rest)));
    }
  }

  lemma {:induction false} ArgsAreFormed(args: seq<Arg>, style: Style, rest: Tokens)
    requires LexerSpells(style) && ArgsSpelled(args) && WellFormed(rest)
    ensures WellFormed(PrintArgs(args, style, rest))
    decreases args, 1
  {
    hide WellFormed, Put, Word, LexerSpells, Print, IsName;
    PutIsFormed(RParen, style, rest);
    if |args| > 1 {
      ArgsAreFormed(args[1..], style, rest);
      PutIsFormed(Comma, style, PrintSomeArgs(args[1..], style, rest));
    }
    if args != [] {
      assert args[0].value < args[0];
      var tail := if |args| == 1 then Put(RParen, style, rest) else Put(Comma, style, PrintSomeArgs(args[1..], style, rest));
      ExprIsFormed(args[0].value, style, tail);
      if args[0].argName.Some? {
        PutIsFormed(Equal, style, Print(args[0].value, style, tail));
        WordIsFormed(args[0].argName.value, Put(Equal, style, Print(args[0].value, style, tail)));
      }
    }
  }

  lemma {:induction false} StagesAreFormed(stages: seq<Expr>, style: Style, rest: Tokens)
    requires LexerSpells(style) && AllSpelled(stages) && WellFormed(rest)
    ensures WellFormed(PrintStages(stages, style, rest))
    decreases stages, 0
  {
    hide WellFormed, Put, LexerSpells, Print;
    if stages != [] {
      StagesAreFormed(stages[1..], style, rest);
      ExprIsFormed(stages[0], style, PrintStages(stages[1..], style, rest));
      PutIsFormed(PipeOperator, style, Print(stages[0], style, PrintStages(stages[1..], style, rest)));
    }
  }

  lemma SeparateIsFormed(semicolon: bool, style: Style, rest: Tokens)
    requires LexerSpells(style) && WellFormed(rest)
    ensures WellFormed(Separate(semicolon, style, rest))
  {
    hide WellFormed, Put, LexerSpells;
    PutIsFormed(Semicolon, style, rest);
  }

  lemma {:induction false} ItemsAreFormed(items: seq<Expr>, style: Style, rest: Tokens)
    requires LexerSpells(style) && AllSpelled(items) && WellFormed(rest)
    ensures WellFormed(PrintItems(items, style, rest))
    decreases items, 0
  {
    hide WellFormed, Put, LexerSpells, Print, Separate, Separated;
    if items == [] {
      PutIsFormed(RBrace, style, rest);
    } else {
      var more := PrintItems(items[1..], style, rest);
      ItemsAreFormed(items[1..], style, rest);
      SeparateIsFormed(Separated(items, style, more), style, more);
      ExprIsFormed(items[0], style, Separate(Separated(items, style, more), style, more));
    }
  }

  lemma {:induction false} ArmsAreFormed(arms: seq<Arm>, style: Style, rest: Tokens)
    requires LexerSpells(style) && ArmsSpelled(arms) && WellFormed(rest)
    ensures WellFormed(PrintArms(arms, style, rest))
    decreases arms, 0
  {
    hide WellFormed, Put, Word, LexerSpells, Print, Separate, PrintBindings, IsName, ParamsSpelled;
    if arms == [] {
      PutIsFormed(RBrace, style, rest);
    } else {
      var more := PrintArms(arms[1..], style, rest);
      var tail := Separate(style.semicolon(|more|), style, more);
      ArmsAreFormed(arms[1..], style, rest);
      SeparateIsFormed(style.semicolon(|more|), style, more);
      ExprIsFormed(arms[0].body, style, tail);
      var body := Put(Arrow, style, Print(arms[0].body, style, tail));
      PutIsFormed(Arrow, style, Print(arms[0].body, style, tail));
      BindingsAreFormed(arms[0].bindings, style, body);
      WordIsFormed(arms[0].name, PrintBindings(arms[0].bindings, style, body));
    }
  }

  // ----- programs -----

  lemma {:induction false} PathIsFormed(path: seq<string>, style: Style, rest: Tokens)
    requires LexerSpells(style) && AllNames(path) && WellFormed(rest)
    ensures WellFormed(PrintPath(path, style, rest))
  {
    hide WellFormed, Put, Word, LexerSpells, IsName;
    if |path| > 1 {
      PathIsFormed(path[1..], style, rest);
      PutIsFormed(Dot, style, PrintPath(path[1..], style, rest));
    }
    if path != [] { WordIsFormed(path[0], if |path| == 1 then rest else Put(Dot, style, PrintPath(path[1..], style, rest))); }
  }

  lemma {:induction false} SymbolsAreFormed(symbols: seq<string>, style: Style, rest: Tokens)
    requires LexerSpells(style) && AllNames(symbols) && WellFormed(rest)
    ensures WellFormed(PrintSymbols(symbols, style, rest))
  {
    hide WellFormed, Put, Word, LexerSpells, IsName;
    PutIsFormed(RBrace, style, rest);
    if symbols != [] {
      var more := PrintSymbols(symbols[1..], style, rest);
      SymbolsAreFormed(symbols[1..], style, rest);
      PutIsFormed(Comma, style, more);
      WordIsFormed(symbols[0], if |symbols| == 1 && !style.comma(|more|) then more else Put(Comma, style, more));
    }
  }

  lemma {:induction false} ImportsAreFormed(imports: seq<Import>, style: Style, rest: Tokens)
    requires LexerSpells(style) && (forall i :: 0 <= i < |imports| ==> AllNames(imports[i].path) && AllNames(imports[i].symbols))
    requires WellFormed(rest)
    ensures WellFormed(PrintImports(imports, style, rest))
  {
    hide WellFormed, Put, LexerSpells, AllNames, PrintPath, PrintSymbols;
    if imports != [] {
      var decl, more := imports[0], PrintImports(imports[1..], style, rest);
      ImportsAreFormed(imports[1..], style, rest);
      SymbolsAreFormed(decl.symbols, style, more);
      PutIsFormed(LBrace, style, PrintSymbols(decl.symbols, style, more));
      var tail := if decl.symbols == [] && !style.braces(|more|) then more else Put(LBrace, style, PrintSymbols(decl.symbols, style, more));
      PathIsFormed(decl.path, style, tail);
      PutIsFormed(ImportKeyword, style, PrintPath(decl.path, style, tail));
    }
  }

  lemma AnnotationIsFormed(typeName: Option<string>, style: Style, rest: Tokens)
    requires LexerSpells(style) && OptionalName(typeName) && WellFormed(rest)
    ensures WellFormed(PrintAnnotation(typeName, style, rest))
  {
    hide WellFormed, Put, Word, LexerSpells, IsName;
    PutIsFormed(Equal, style, rest);
    if typeName.Some? {
      WordIsFormed(typeName.value, Put(Equal, style, rest));
      PutIsFormed(Colon, style, Word(typeName.value, Put(Equal, style, rest)));
    }
  }

  lemma {:induction false} VariantsAreFormed(variants: seq<Variant>, style: Style, rest: Tokens)
    requires LexerSpells(style) && VariantsSpelled(variants) && WellFormed(rest)
    ensures WellFormed(PrintVariants(variants, style, rest))
  {
    hide WellFormed, Put, Word, LexerSpells, IsName, ParamsSpelled, PrintBindings;
    if |variants| > 1 {
      VariantsAreFormed(variants[1..], style, rest);
      PutIsFormed(Bar, style, PrintVariants(variants[1..], style, rest));
    }
    if variants != [] {
      var tail := if |variants| == 1 then rest else Put(Bar, style, PrintVariants(variants[1..], style, rest));
      BindingsAreFormed(variants[0].payload, style, tail);
      WordIsFormed(variants[0].name, PrintBindings(variants[0].payload, style, tail));
    }
  }

  /** The keyword and the name of a declaration, in front of what is well formed. */
  lemma HeadIsFormed(typ: TokenType, name: string, style: Style, rest: Tokens)
    requires LexerSpells(style) && Spelling(typ) != [] && IsName(name) && WellFormed(rest)
    ensures WellFormed(Put(typ, style, Word(name, rest)))
  {
    hide WellFormed, Put, Word, LexerSpells, IsName;
    WordIsFormed(name, rest);
    PutIsFormed(typ, style, Word(name, rest));
  }

  lemma DeclIsFormed(d: Declaration, style: Style, rest: Tokens)
    requires LexerSpells(style) && DeclSpelled(d) && WellFormed(rest)
    ensures WellFormed(PrintDecl(d, style, rest))
  {
    hide WellFormed, Put, Word, LexerSpells, IsName, ParamsSpelled, OptionalName, ExprSpelled, Print, PrintParams, PrintAnnotation,
         VariantsSpelled, PrintVariants;
    match d
    case LetDeclaration(name, typeName, value) =>
      ExprIsFormed(value, style, rest);
      AnnotationIsFormed(typeName, style, Print(value, style, rest));
      HeadIsFormed(LetKeyword, name, style, PrintAnnotation(typeName, style, Print(value, style, rest)));
    case FunDeclaration(name, params, returnType, body) =>
      ExprIsFormed(body, style, rest);
      var annotated := PrintAnnotation(returnType, style, Print(body, style, rest));
      AnnotationIsFormed(returnType, style, Print(body, style, rest));
      ParamsAreFormed(params, style, annotated);
      PutIsFormed(LParen, style, PrintParams(params, style, annotated));
      HeadIsFormed(FunKeyword, name, style, Put(LParen, style, PrintParams(params, style, annotated)));
    case SumDeclaration(name, variants) =>
      VariantsAreFormed(variants, style, rest);
      PutIsFormed(Equal, style, PrintVariants(variants, style, rest));
      HeadIsFormed(TypeKeyword, name, style, Put(Equal, style, PrintVariants(variants, style, rest)));
    case TupleDeclaration(name, fields) =>
      ParamsAreFormed(fields, style, rest);
      PutIsFormed(LParen, style, PrintParams(fields, style, rest));
      HeadIsFormed(TypeKeyword, name, style, Put(LParen, style, PrintParams(fields, style, rest)));
  }

  lemma {:induction false} DeclsAreFormed(decls: seq<Declaration>, style: Style, end: Tokens)
    requires LexerSpells(style) && (forall i :: 0 <= i < |decls| ==> DeclSpelled(decls[i])) && WellFormed(end)
    ensures WellFormed(PrintDecls(decls, style, end))
  {
    hide WellFormed, LexerSpells, DeclSpelled, PrintDecl;
    if decls != [] {
      DeclsAreFormed(decls[1..], style, end);
      DeclIsFormed(decls[0], style, PrintDecls(decls[1..], style, end));
    }
  }

  /** The tokens of a program with proper names and literals are tokens of the lexer. */
  lemma ProgramIsFormed(p: Program, style: Style)
    requires LexerSpells(style) && ProgramSpelled(p)
    ensures WellFormed(PrintProgram(p, style, End))
  {
    assert WellFormed(End);
    hide WellFormed, LexerSpells, DeclSpelled, AllNames, PrintDecls, PrintImports, PrintPath, Put;
    var decls := PrintDecls(p.decls, style, End);
    var imports := PrintImports(p.imports, style, decls);
    DeclsAreFormed(p.decls, style, End);
    ImportsAreFormed(p.imports, style, decls);
    PathIsFormed(p.path, style, imports);
    PutIsFormed(ModuleKeyword, style, PrintPath(p.path, style, imports));
  }
}
