/** The printer for whole programs, and the round trip through their parsers. */
module ProgramRoundTrip {
  import opened Lexer
  import opened Syntax
  import opened Parser
  import opened Printer
  import opened ParserRoundTrip
  import opened Programs

  // ----- printing -----

  function PrintPath(path: seq<string>, style: Style, rest: Tokens): Tokens {
    if path == [] then rest
    else Word(path[0], if |path| == 1 then rest else Put(Dot, style, PrintPath(path[1..], style, rest)))
  }

  function PrintSymbols(symbols: seq<string>, style: Style, rest: Tokens): Tokens {
    if symbols == [] then Put(RBrace, style, rest)
    else
      var more := PrintSymbols(symbols[1..], style, rest);
      Word(symbols[0], if |symbols| == 1 && !style.comma(|more|) then more else Put(Comma, style, more))
  }

  function PrintImport(decl: Import, style: Style, rest: Tokens): Tokens {
    Put(ImportKeyword, style, PrintPath(decl.path, style, if decl.symbols == [] && !style.braces(|rest|) then rest else Put(LBrace, style, PrintSymbols(decl.symbols, style, rest))))
  }

  function PrintImports(imports: seq<Import>, style: Style, rest: Tokens): Tokens {
    if imports == [] then rest else PrintImport(imports[0], style, PrintImports(imports[1..], style, rest))
  }

  function PrintAnnotation(typeName: Option<string>, style: Style, rest: Tokens): Tokens {
    if typeName.Some? then Put(Colon, style, Word(typeName.value, Put(Equal, style, rest))) else Put(Equal, style, rest)
  }

  function PrintVariant(variant: Variant, style: Style, rest: Tokens): Tokens {
    Word(variant.name, PrintBindings(variant.payload, style, rest))
  }

  function PrintVariants(variants: seq<Variant>, style: Style, rest: Tokens): Tokens {
    if variants == [] then rest
    else PrintVariant(variants[0], style, if |variants| == 1 then rest else Put(Bar, style, PrintVariants(variants[1..], style, rest)))
  }

  function PrintDecl(d: Declaration, style: Style, rest: Tokens): Tokens {
    match d
    case LetDeclaration(name, typeName, value) =>
      Put(LetKeyword, style, Word(name, PrintAnnotation(typeName, style, Print(value, style, rest))))
    case FunDeclaration(name, params, returnType, body) =>
      Put(FunKeyword, style, Word(name, Put(LParen, style, PrintParams(params, style, PrintAnnotation(returnType, style, Print(body, style, rest))))))
    case SumDeclaration(name, variants) => Put(TypeKeyword, style, Word(name, Put(Equal, style, PrintVariants(variants, style, rest))))
    case TupleDeclaration(name, fields) => Put(TypeKeyword, style, Word(name, Put(LParen, style, PrintParams(fields, style, rest))))
  }

  const End: Tokens := [Token(Eof, [])]

  function PrintDecls(decls: seq<Declaration>, style: Style, end: Tokens): Tokens {
    if decls == [] then end else PrintDecl(decls[0], style, PrintDecls(decls[1..], style, end))
  }

  /** The tokens of a program in front of `end`, which begins with the end of file. */
  function PrintProgram(p: Program, style: Style, end: Tokens): Tokens {
    Put(ModuleKeyword, style, PrintPath(p.path, style, PrintImports(p.imports, style, PrintDecls(p.decls, style, end))))
  }

  predicate PrintableDecl(d: Declaration) {
    match d
    case LetDeclaration(_, _, value) => Printable(value)
    case FunDeclaration(_, _, _, body) => Printable(body)
    case SumDeclaration(_, variants) => variants != []
    case TupleDeclaration(_, _) => true
  }

  predicate PrintableProgram(p: Program) {
    p.path != []
    && (forall i :: 0 <= i < |p.imports| ==> p.imports[i].path != [])
    && (forall i :: 0 <= i < |p.decls| ==> PrintableDecl(p.decls[i]))
  }

  // ----- the round trip -----

  lemma PathStep(ts: Tokens, style: Style, more: Tokens, path: seq<string>, rest: Tokens)
    requires Starts(ts, Identifier) && ts[1..] == Put(Dot, style, more) && ParsePath(more) == Parsed(path, rest)
    ensures ParsePath(ts) == Parsed([ts[0].lexeme] + path, rest)
  {
    hide Put;
    assert ts[2..] == ts[1..][1..] == more;
  }

  lemma {:induction false} PathRound(path: seq<string>, style: Style, rest: Tokens)
    requires path != [] && Head(rest) != Dot
    ensures ParsePath(PrintPath(path, style, rest)) == Parsed(path, rest)
  {
    hide Put, Word;
    var ts := PrintPath(path, style, rest);
    if |path| > 1 {
      PathRound(path[1..], style, rest);
      hide ParsePath;
      PathStep(ts, style, PrintPath(path[1..], style, rest), path[1..], rest);
      assert path == [path[0]] + path[1..];
    } else {
      assert ts[1..] == rest;
      assert path == [path[0]];
    }
  }

  lemma SymbolsStep(ts: Tokens, style: Style, more: Tokens, symbols: seq<string>, rest: Tokens)
    requires Starts(ts, Identifier) && ts[1..] == Put(Comma, style, more) && ParseSymbols(more) == Parsed(symbols, rest)
    ensures ParseSymbols(ts) == Parsed([ts[0].lexeme] + symbols, rest)
  {
    hide Put;
    assert ts[2..] == ts[1..][1..] == more;
  }

  lemma LastSymbol(ts: Tokens, style: Style, rest: Tokens)
    requires Starts(ts, Identifier) && ts[1..] == Put(RBrace, style, rest)
    ensures ParseSymbols(ts) == Parsed([ts[0].lexeme], rest)
  {
    hide Put;
    assert ts[2..] == ts[1..][1..] == rest;
  }

  lemma {:induction false} SymbolsRound(symbols: seq<string>, style: Style, rest: Tokens)
    ensures ParseSymbols(PrintSymbols(symbols, style, rest)) == Parsed(symbols, rest)
  {
    hide Put, Word;
    if symbols != [] {
      var ts := PrintSymbols(symbols, style, rest);
      var more := PrintSymbols(symbols[1..], style, rest);
      SymbolsRound(symbols[1..], style, rest);
      hide ParseSymbols;
      assert symbols == [symbols[0]] + symbols[1..];
      if |symbols| == 1 && !style.comma(|more|) {
        assert symbols[1..] == [] && more == Put(RBrace, style, rest) && symbols == [symbols[0]];
        LastSymbol(ts, style, rest);
      } else {
        SymbolsStep(ts, style, more, symbols[1..], rest);
      }
    }
  }

  predicate BehindImports(rest: Tokens) {
    Head(rest) != ImportKeyword && Head(rest) != Dot && Head(rest) != LBrace
  }

  lemma ImportRound(decl: Import, style: Style, rest: Tokens)
    requires decl.path != [] && Head(rest) != Dot && Head(rest) != LBrace
    ensures Starts(PrintImport(decl, style, rest), ImportKeyword)
    ensures ParseImport(PrintImport(decl, style, rest)) == Parsed(decl, rest)
  {
    hide Put, Word, ParsePath, PrintPath, ParseSymbols, PrintSymbols;
    PathRound(decl.path, style, if decl.symbols == [] && !style.braces(|rest|) then rest else Put(LBrace, style, PrintSymbols(decl.symbols, style, rest)));
    if decl.symbols != [] || style.braces(|rest|) { SymbolsRound(decl.symbols, style, rest); }
  }

  lemma {:induction false} ImportsRound(imports: seq<Import>, style: Style, rest: Tokens)
    requires (forall i :: 0 <= i < |imports| ==> imports[i].path != []) && BehindImports(rest)
    ensures ParseImports(PrintImports(imports, style, rest)) == Parsed(imports, rest)
    ensures Head(PrintImports(imports, style, rest)) != Dot && Head(PrintImports(imports, style, rest)) != LBrace
  {
    hide Put, Word, ParseImport, PrintImport;
    if imports != [] {
      ImportsRound(imports[1..], style, rest);
      ImportRound(imports[0], style, PrintImports(imports[1..], style, rest));
      assert imports == [imports[0]] + imports[1..];
    }
  }

  lemma AnnotationRound(typeName: Option<string>, style: Style, rest: Tokens)
    ensures ParseAnnotation(PrintAnnotation(typeName, style, rest)) == Parsed(typeName, rest)
  {
    hide Put, Word;
    if typeName.Some? {
      var ts := PrintAnnotation(typeName, style, rest);
      var name := Word(typeName.value, Put(Equal, style, rest));
      assert ts[1..] == name && name[1..] == Put(Equal, style, rest) && ts[2..] == Put(Equal, style, rest) && ts[3..] == rest;
    }
  }

  lemma VariantRound(variant: Variant, style: Style, rest: Tokens)
    requires Head(rest) != LParen
    ensures ParseVariant(PrintVariant(variant, style, rest)) == Parsed(variant, rest)
  {
    hide Put, Word, ParseParams, PrintParams;
    var ts := PrintVariant(variant, style, rest);
    if variant.payload != [] || style.parens(|rest|) {
      var params := PrintParams(variant.payload, style, rest);
      ParamsRound(variant.payload, style, rest);
      assert ts[1..] == Put(LParen, style, params) && ts[2..] == params;
    } else {
      assert ts[1..] == rest;
    }
  }

  lemma {:induction false} VariantsRound(variants: seq<Variant>, style: Style, rest: Tokens)
    requires variants != [] && Head(rest) != LParen && Head(rest) != Bar
    ensures ParseVariants(PrintVariants(variants, style, rest)) == Parsed(variants, rest)
  {
    hide Put, Word, ParseVariant, PrintVariant, ParseVariants;
    var tail := if |variants| == 1 then rest else Put(Bar, style, PrintVariants(variants[1..], style, rest));
    VariantRound(variants[0], style, tail);
    if |variants| > 1 { VariantsRound(variants[1..], style, rest); }
    VariantsParsed(PrintVariant(variants[0], style, tail), variants[0], tail, variants[1..], rest);
    assert variants == [variants[0]] + variants[1..];
  }

  /** What ParseVariants returns, given what its parts return. */
  lemma VariantsParsed(ts: Tokens, variant: Variant, tail: Tokens, variants: seq<Variant>, rest: Tokens)
    requires ParseVariant(ts) == Parsed(variant, tail)
    requires if variants == [] then tail == rest && !Starts(rest, Bar)
             else Starts(tail, Bar) && ParseVariants(tail[1..]) == Parsed(variants, rest)
    ensures ParseVariants(ts) == Parsed([variant] + variants, rest)
  {
    hide ParseVariant;
    assert variants == [] ==> [variant] + variants == [variant];
  }

  /** What stands behind a declaration: another one, or the end. */
  predicate BehindDecl(rest: Tokens) {
    Head(rest) == Eof || Head(rest) == TypeKeyword || Head(rest) == FunKeyword || Head(rest) == LetKeyword
  }

  lemma DeclRound(d: Declaration, style: Style, rest: Tokens)
    requires PrintableDecl(d) && BehindDecl(rest)
    ensures ParseDecl(PrintDecl(d, style, rest)) == Parsed(d, rest)
    ensures var ts := PrintDecl(d, style, rest); BehindDecl(ts) && Head(ts) != Eof
  {
    hide Put, Word;
    match d
    case LetDeclaration(_, _, _) => LetRound(d, style, rest);
    case FunDeclaration(_, _, _, _) => FunRound(d, style, rest);
    case SumDeclaration(_, _) => TypeRound(d, style, rest);
    case TupleDeclaration(_, _) => TypeRound(d, style, rest);
  }

  lemma LetRound(d: Declaration, style: Style, rest: Tokens)
    requires d.LetDeclaration? && PrintableDecl(d) && BehindDecl(rest)
    ensures ParseDecl(PrintDecl(d, style, rest)) == Parsed(d, rest)
  {
    hide Put, Word, ParseExpr, Print, ParseAnnotation, PrintAnnotation;
    var value := Print(d.value, style, rest);
    var annotated := PrintAnnotation(d.typeName, style, value);
    var ts := PrintDecl(d, style, rest);
    assert ts[1..] == Word(d.name, annotated) && ts[2..] == annotated;
    AnnotationRound(d.typeName, style, value);
    EndsStop(d.value, rest);
    ExprRound(d.value, style, rest);
  }

  lemma FunRound(d: Declaration, style: Style, rest: Tokens)
    requires d.FunDeclaration? && PrintableDecl(d) && BehindDecl(rest)
    ensures ParseDecl(PrintDecl(d, style, rest)) == Parsed(d, rest)
  {
    hide Put, Word, ParseExpr, Print, ParseAnnotation, PrintAnnotation, ParseParams, PrintParams;
    var body := Print(d.body, style, rest);
    var annotated := PrintAnnotation(d.returnType, style, body);
    var params := PrintParams(d.params, style, annotated);
    var ts := PrintDecl(d, style, rest);
    assert ts[1..] == Word(d.name, Put(LParen, style, params)) && ts[2..] == Put(LParen, style, params) && ts[3..] == params;
    ParamsRound(d.params, style, annotated);
    AnnotationRound(d.returnType, style, body);
    EndsStop(d.body, rest);
    ExprRound(d.body, style, rest);
  }

  lemma TypeRound(d: Declaration, style: Style, rest: Tokens)
    requires (d.SumDeclaration? || d.TupleDeclaration?) && PrintableDecl(d) && BehindDecl(rest)
    ensures ParseDecl(PrintDecl(d, style, rest)) == Parsed(d, rest)
  {
    if d.SumDeclaration? { SumRound(d, style, rest); } else { TupleRound(d, style, rest); }
  }

  lemma SumRound(d: Declaration, style: Style, rest: Tokens)
    requires d.SumDeclaration? && PrintableDecl(d) && BehindDecl(rest)
    ensures ParseDecl(PrintDecl(d, style, rest)) == Parsed(d, rest)
  {
    hide Put, Word, ParseVariants, PrintVariants, ParseParams, PrintParams, ParseFun, ParseLet;
    var ts := PrintDecl(d, style, rest);
    var variants := PrintVariants(d.variants, style, rest);
    assert ts[1..] == Word(d.name, Put(Equal, style, variants)) && ts[2..] == Put(Equal, style, variants);
    VariantsRound(d.variants, style, rest);
  }

  lemma TupleRound(d: Declaration, style: Style, rest: Tokens)
    requires d.TupleDeclaration?
    ensures ParseDecl(PrintDecl(d, style, rest)) == Parsed(d, rest)
  {
    hide Put, Word, ParseVariants, PrintVariants, ParseParams, PrintParams, ParseFun, ParseLet;
    var ts := PrintDecl(d, style, rest);
    var fields := PrintParams(d.fields, style, rest);
    assert ts[1..] == Word(d.name, Put(LParen, style, fields)) && ts[2..] == Put(LParen, style, fields);
    ParamsRound(d.fields, style, rest);
  }

  lemma {:induction false} DeclsRound(decls: seq<Declaration>, style: Style, end: Tokens)
    requires (forall i :: 0 <= i < |decls| ==> PrintableDecl(decls[i])) && Head(end) == Eof
    ensures ParseDecls(PrintDecls(decls, style, end)) == Parsed(decls, end)
    ensures BehindDecl(PrintDecls(decls, style, end))
  {
    hide Put, Word, ParseDecl, PrintDecl, PrintableDecl;
    if decls != [] {
      DeclsRound(decls[1..], style, end);
      DeclRound(decls[0], style, PrintDecls(decls[1..], style, end));
      assert decls == [decls[0]] + decls[1..];
    }
  }

  /** Parsing the printed tokens of a program returns that program and leaves the end of file. */
  lemma ProgramRound(p: Program, style: Style, end: Tokens)
    requires PrintableProgram(p) && Head(end) == Eof
    ensures ParseProgram(PrintProgram(p, style, end)) == Parsed(p, end)
  {
    hide Put, Word, ParsePath, ParseImports, ParseDecls, PrintPath, PrintImports, PrintDecls;
    var decls := PrintDecls(p.decls, style, end);
    var imports := PrintImports(p.imports, style, decls);
    DeclsRound(p.decls, style, end);
    ImportsRound(p.imports, style, decls);
    PathRound(p.path, style, imports);
  }
}
