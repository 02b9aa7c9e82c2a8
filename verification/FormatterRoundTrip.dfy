/** Formatting loses nothing: lexing the formatted text gives the tokens back, exactly when no
    number without a point is followed by a point and no `=>` occurs. */
module FormatterRoundTrip {
  import opened Lexer
  import opened Formatter

  // ----- tokens the lexer can produce -----

  /** The lexeme, alone, is this token. */
  predicate Lexable(t: Token) {
    t.lexeme != [] && Scan(t.lexeme) == Scanned(t.typ, |t.lexeme|) && t.typ != ErrorToken
  }

  /** A token list as the lexer returns it when it finds no error. */
  predicate WellFormed(ts: seq<Token>) {
    ts != [] && if |ts| == 1 then ts[0] == Token(Eof, []) else Lexable(ts[0]) && WellFormed(ts[1..])
  }

  /** A number without a decimal point. */
  predicate Dotless(t: Token) {
    t.typ == NumberToken && '.' !in t.lexeme
  }

  /** No number without a point has a point behind it. */
  predicate NoSplitNumber(ts: seq<Token>) {
    forall i :: 0 <= i < |ts| - 1 && Dotless(ts[i]) ==> ts[i + 1].typ != Dot
  }

  predicate NoArrowFn(ts: seq<Token>) {
    forall i :: 0 <= i < |ts| ==> ts[i].typ != ArrowFn
  }

  /** What is left of `=>`: the formatter writes both arrows as `->`. */
  function Arrowed(t: Token): Token {
    if t.typ == ArrowFn then Token(Arrow, "->") else t
  }

  function AllArrowed(ts: seq<Token>): seq<Token> {
    if ts == [] then [] else [Arrowed(ts[0])] + AllArrowed(ts[1..])
  }

  // ----- the lexer looks no further than one character -----

  lemma {:induction false} WordStops(s: string, rest: string)
    requires WordLength(s) == |s| && (rest == [] || !IsWord(rest[0]))
    ensures WordLength(s + rest) == |s|
  {
    if s == [] {
      assert s + rest == rest;
    } else {
      WordStops(s[1..], rest);
      assert (s + rest)[1..] == s[1..] + rest;
    }
  }

  lemma {:induction false} DigitsStop(s: string, rest: string)
    requires DigitsLength(s) == |s| && (rest == [] || !IsDigit(rest[0]))
    ensures DigitsLength(s + rest) == |s|
  {
    if s == [] {
      assert s + rest == rest;
    } else {
      DigitsStop(s[1..], rest);
      assert (s + rest)[1..] == s[1..] + rest;
    }
  }

  lemma {:induction false} DigitsOnly(s: string)
    ensures var n := DigitsLength(s);
            (forall i :: 0 <= i < n ==> IsDigit(s[i])) && DigitsLength(s[..n]) == n && (n < |s| ==> !IsDigit(s[n]))
  {
    if s != [] && IsDigit(s[0]) {
      DigitsOnly(s[1..]);
      var n := DigitsLength(s);
      assert s[..n][1..] == s[1..][..n - 1];
    }
  }

  lemma NumberStops(s: string, rest: string)
    requires NumberLength(s) == |s| && (rest == [] || !IsDigit(rest[0]))
    requires rest != [] && rest[0] == '.' ==> '.' in s
    ensures NumberLength(s + rest) == |s|
  {
    var n := DigitsLength(s);
    DigitsOnly(s);
    if n < |s| {
      assert s + rest == s[..n] + (s[n..] + rest);
      DigitsStop(s[..n], s[n..] + rest);
      DigitsStop(s[n + 1..], rest);
      assert (s + rest)[n + 1..] == s[n + 1..] + rest;
    } else {
      assert '.' !in s;
      DigitsStop(s, rest);
    }
  }

  lemma {:induction false} ClosingStops(s: string, triple: bool, rest: string)
    requires ClosingLength(s, triple) == Closed(|s|)
    ensures ClosingLength(s + rest, triple) == Closed(|s|)
    decreases |s|
  {
    var all := s + rest;
    assert all[0] == s[0];
    assert |s| >= 3 ==> all[1] == s[1] && all[2] == s[2];
    if !triple && s[0] == '\"' {
    } else if triple && Quotes(s, 3) {
      assert Quotes(all, 3);
    } else {
      var step := if s[0] == '\\' && |s| > 1 then 2 else 1;
      ClosesInside(s, triple);
      ClosingStops(s[step..], triple, rest);
      assert all[step..] == s[step..] + rest;
      assert triple ==> !Quotes(all, 3);
    }
  }

  /** The closing quotes have not been reached, so there is room for them. */
  lemma {:induction false} ClosesInside(s: string, triple: bool)
    requires ClosingLength(s, triple).Closed?
    ensures |s| >= if triple then 3 else 1
    ensures triple && !Quotes(s, 3) ==> |s| > 3
    decreases |s|
  {
    if !(triple && Quotes(s, 3)) && !(!triple && s[0] == '\"') {
      ClosesInside(s[if s[0] == '\\' && |s| > 1 then 2 else 1..], triple);
    }
  }

  lemma StringStops(s: string, rest: string)
    requires s != [] && s[0] == '\"' && StringLength(s) == Closed(|s|)
    requires rest == [] || rest[0] != '\"'
    ensures StringLength(s + rest) == Closed(|s|)
  {
    var n := OpeningLength(s);
    var all := s + rest;
    ClosesInside(s[n..], n == 3);
    assert |s| >= 3 ==> all[0] == s[0] && all[1] == s[1] && all[2] == s[2];
    if |s| == 2 && |all| > 2 { assert all[2] == rest[0]; }
    assert OpeningLength(all) == n;
    assert all[n..] == s[n..] + rest;
    ClosingStops(s[n..], n == 3, rest);
  }

  /** What may follow `t` without changing how it is read. */
  predicate MayFollow(t: Token, rest: string) {
    || rest == []
    || t.typ == LParen || t.typ == LBracket || t.typ == Dot
    || IsSpace(rest[0])
    || rest[0] == ')' || rest[0] == ']' || rest[0] == ',' || rest[0] == ';'
    || (rest[0] == '.' && !Dotless(t))
  }

  /** Locality: a token is read the same with such a text behind it. */
  lemma ScanStops(t: Token, rest: string)
    requires Lexable(t) && MayFollow(t, rest)
    ensures Scan(t.lexeme + rest) == Scanned(t.typ, |t.lexeme|)
  {
    hide WordLength, NumberLength, StringLength, KeywordType;
    var s := t.lexeme;
    var all := s + rest;
    assert all[0] == s[0];
    assert |s| > 1 ==> all[1] == s[1];
    assert |s| == 1 && rest != [] ==> all[1] == rest[0];
    if IsAlpha(s[0]) || s[0] == '_' {
      assert s[..|s|] == s && all[..|s|] == s;
      WordTypes(s);
      WordStops(s, rest);
    } else if IsDigit(s[0]) {
      NumberStops(s, rest);
    } else if s[0] == '\"' {
      StringStops(s, rest);
    }
  }

  lemma WordTypes(s: string)
    ensures var typ := KeywordType(s);
            typ != LParen && typ != LBracket && typ != Dot && typ != NumberToken
  {
  }

  // ----- blanks -----

  predicate AllSpace(s: string) {
    forall i :: 0 <= i < |s| ==> IsSpace(s[i])
  }

  /** Leading white space does not matter. */
  lemma {:induction false} LexSkips(blank: string, s: string)
    requires AllSpace(blank)
    ensures Lex(blank + s) == Lex(s)
  {
    SpacesSkipped(blank, s);
    LexFrom(blank + s, s[BlankLength(s)..]);
    LexFrom(s, s[BlankLength(s)..]);
  }

  lemma {:induction false} SpacesSkipped(blank: string, s: string)
    requires AllSpace(blank)
    ensures BlankLength(blank + s) == |blank| + BlankLength(s)
    ensures (blank + s)[|blank| + BlankLength(s)..] == s[BlankLength(s)..]
  {
    if blank == [] {
      assert blank + s == s;
    } else {
      SpacesSkipped(blank[1..], s);
      assert (blank + s)[1..] == blank[1..] + s;
    }
  }

  lemma {:induction false} IndentationIsSpace(n: nat)
    ensures AllSpace(Indentation(n))
  {
    if n > 0 { IndentationIsSpace(n - 1); }
  }

  lemma GapsAreSpace(typ: TokenType, pen: Pen)
    ensures AllSpace(Before(typ, pen)) && AllSpace(After(typ))
  {
    IndentationIsSpace(pen.indent);
    IndentationIsSpace(Outer(pen));
  }

  // ----- one token of the formatted text -----

  function Text(t: Token, ts: seq<Token>, pen: Pen): string {
    After(t.typ) + Format(ts, Next(t.typ, pen))
  }

  /** Where nothing is written between two tokens. */
  lemma WhereTokensTouch(typ: TokenType, next: TokenType, pen: Pen)
    requires typ != Eof && next != Eof
    requires After(typ) == [] && Before(next, Next(typ, pen)) == []
    ensures || typ == LParen || typ == LBracket || typ == Dot
            || next == RParen || next == RBracket || next == Comma || next == Semicolon || next == Dot
  {
    hide Indentation, Next, After;
    NothingAfter(typ, pen);
  }

  lemma NothingAfter(typ: TokenType, pen: Pen)
    requires After(typ) == []
    ensures Next(typ, pen) == Pen(pen.indent, false, typ)
  {
  }

  /** The formatter never lets two lexemes touch that would merge. */
  lemma TextMayFollow(t: Token, ts: seq<Token>, pen: Pen)
    requires Lexable(t) && WellFormed(ts) && !(Dotless(t) && ts[0].typ == Dot)
    ensures MayFollow(t, Text(t, ts, pen))
  {
    hide Scan, Before, After, Next, Format, Dotless;
    var after, next := Next(t.typ, pen), ts[0];
    GapsAreSpace(t.typ, pen);
    GapsAreSpace(next.typ, after);
    LexemeOf(t);
    if After(t.typ) == [] && next.typ != Eof && Before(next.typ, after) == [] { WhereTokensTouch(t.typ, next.typ, pen); }
    if next.typ == Eof {
      EndOfText(t.typ, ts, pen);
    } else {
      LexemeOf(next);
      FormatCons(next, ts[1..], after);
      assert [next] + ts[1..] == ts;
      HeadOf(After(t.typ), Before(next.typ, after), Written(next), Text(next, ts[1..], after));
    }
  }

  lemma EndOfText(typ: TokenType, ts: seq<Token>, pen: Pen)
    requires ts != [] && ts[0].typ == Eof
    ensures var text := After(typ) + Format(ts, Next(typ, pen));
            AllSpace(text)
  {
    GapsAreSpace(typ, pen);
  }

  lemma HeadOf(a: string, b: string, w: string, rest: string)
    requires w != []
    ensures (a + (b + (w + rest)))[0] == if a + b != [] then (a + b)[0] else w[0]
  {
  }

  lemma LexemeOf(t: Token)
    requires Lexable(t)
    ensures t.typ == RParen ==> t.lexeme == ")"
    ensures t.typ == RBracket ==> t.lexeme == "]"
    ensures t.typ == Comma ==> t.lexeme == ","
    ensures t.typ == Semicolon ==> t.lexeme == ";"
    ensures t.typ == Dot ==> t.lexeme == "."
    ensures t.typ == Arrow ==> t.lexeme == "->"
    ensures t.typ != Eof && !IsSpace(t.lexeme[0]) && t.lexeme[0] != '#'
  {
    hide WordLength, NumberLength, StringLength;
  }

  // ----- the round trip -----

  lemma FirstToken(t: Token, ts: seq<Token>, pen: Pen)
    requires Lexable(t) && WellFormed(ts) && !(Dotless(t) && ts[0].typ == Dot)
    ensures Lex(Format([t] + ts, pen)) == [Arrowed(t)] + Lex(Format(ts, Next(t.typ, pen)))
  {
    hide Scan, Lex, Before, After, Next, Format, MayFollow;
    var all := Format([t] + ts, pen);
    var rest := Text(t, ts, pen);
    var read := Written(t) + rest;
    LexemeOf(t);
    FormatCons(t, ts, pen);
    GapsAreSpace(t.typ, pen);
    LexSkips(Before(t.typ, pen), read);
    TextMayFollow(t, ts, pen);
    WrittenScans(t, rest);
    assert read[0] == Written(t)[0];
    assert read[BlankLength(read)..] == read;
    LexFrom(read, read);
    assert read[..|Written(t)|] == Written(t) && read[|Written(t)|..] == rest;
    LexSkips(After(t.typ), Format(ts, Next(t.typ, pen)));
  }

  lemma FormatCons(t: Token, ts: seq<Token>, pen: Pen)
    requires t.typ != Eof
    ensures Format([t] + ts, pen) == Before(t.typ, pen) + (Written(t) + Text(t, ts, pen))
  {
    assert ([t] + ts)[1..] == ts;
  }

  lemma WrittenScans(t: Token, rest: string)
    requires Lexable(t) && MayFollow(t, rest)
    ensures Scan(Written(t) + rest) == Scanned(Arrowed(t).typ, |Written(t)|) && Written(t) == Arrowed(t).lexeme
    ensures Written(t) != [] && !IsSpace(Written(t)[0]) && Written(t)[0] != '#'
  {
    LexemeOf(t);
    if t.typ == Arrow || t.typ == ArrowFn {
      ArrowScans(rest);
    } else {
      ScanStops(t, rest);
    }
  }

  lemma ArrowScans(rest: string)
    ensures Scan("->" + rest) == Scanned(Arrow, 2)
  {
    assert ("->" + rest)[0] == '-' && ("->" + rest)[1] == '>';
  }

  /** Lexing formatted tokens gives the tokens back, but for `=>` turned into `->`. */
  lemma {:induction false} LexFormat(ts: seq<Token>, pen: Pen)
    requires WellFormed(ts) && NoSplitNumber(ts)
    ensures Lex(Format(ts, pen)) == AllArrowed(ts)
    decreases |ts|
  {
    hide Lexable, Dotless;
    if |ts| == 1 {
      EndLexes(pen);
      assert ts[1..] == [];
    } else {
      var rest := ts[1..];
      assert ts == [ts[0]] + rest;
      assert Dotless(ts[0]) ==> ts[1].typ != Dot;
      assert forall i :: 0 <= i < |rest| ==> rest[i] == ts[i + 1];
      FirstToken(ts[0], rest, pen);
      LexFormat(rest, Next(ts[0].typ, pen));
    }
  }

  lemma EndLexes(pen: Pen)
    ensures Lex(Break(pen)) == [Token(Eof, [])]
  {
    assert "\n"[1..] == "";
    assert BlankLength("") == 0;
  }

  /** A number without a point in front of a point is read with that point. */
  lemma SplitIsLost(t: Token, ts: seq<Token>, pen: Pen)
    requires Lexable(t) && WellFormed(ts) && Dotless(t) && ts[0].typ == Dot
    ensures Lex(Format([t] + ts, pen))[0] != t
  {
    hide Lex, Format, Before, Scan;
    LexemeOf(ts[0]);
    var rest := Text(t, ts, pen);
    PointFollows(t, ts, pen);
    var read := t.lexeme + rest;
    FormatCons(t, ts, pen);
    GapsAreSpace(t.typ, pen);
    LexSkips(Before(t.typ, pen), read);
    NumberSwallows(t, rest);
    assert read[0] == t.lexeme[0];
    assert read[BlankLength(read)..] == read;
    LexFrom(read, read);
  }

  lemma PointFollows(t: Token, ts: seq<Token>, pen: Pen)
    requires t.typ == NumberToken && ts != [] && ts[0].typ == Dot && ts[0].lexeme == "."
    ensures var rest := Text(t, ts, pen); rest != [] && rest[0] == '.'
  {
    hide Indentation;
    var after := Next(t.typ, pen);
    FormatCons(ts[0], ts[1..], after);
    assert [ts[0]] + ts[1..] == ts;
    assert Before(Dot, after) == [];
    HeadOf([], [], ".", Text(ts[0], ts[1..], after));
  }

  lemma NumberSwallows(t: Token, rest: string)
    requires Lexable(t) && Dotless(t) && rest != [] && rest[0] == '.'
    ensures var first := Scan(t.lexeme + rest); first.typ == NumberToken && first.length > |t.lexeme|
    ensures IsDigit(t.lexeme[0])
  {
    var s := t.lexeme;
    WordTypes(s);
    assert s[..|s|] == s;
    PointInNumber(s);
    DigitsStop(s, rest);
    assert (s + rest)[0] == s[0];
  }

  lemma PointInNumber(s: string)
    requires NumberLength(s) == |s|
    ensures DigitsLength(s) == |s| || '.' in s
  {
    var n := DigitsLength(s);
    if n < |s| { assert s[n] == '.'; }
  }

  /** The round trip succeeds exactly when no number without a point is followed by a point and no
      `=>` occurs. */
  lemma {:induction false} RoundTripIff(ts: seq<Token>, pen: Pen)
    requires WellFormed(ts)
    ensures Lex(Format(ts, pen)) == ts <==> NoSplitNumber(ts) && NoArrowFn(ts)
    decreases |ts|
  {
    hide Lexable, Dotless, Lex, Format;
    if |ts| == 1 {
      EndLexes(pen);
      assert Format(ts, pen) == Break(pen) by { EndFormat(ts, pen); }
    } else {
      var rest := ts[1..];
      assert ts == [ts[0]] + rest;
      assert forall i :: 0 <= i < |rest| ==> rest[i] == ts[i + 1];
      if Dotless(ts[0]) && ts[1].typ == Dot {
        SplitIsLost(ts[0], rest, pen);
      } else {
        FirstToken(ts[0], rest, pen);
        RoundTripIff(rest, Next(ts[0].typ, pen));
        RestIff(ts, rest);
      }
    }
  }

  lemma EndFormat(ts: seq<Token>, pen: Pen)
    requires ts == [Token(Eof, [])]
    ensures Format(ts, pen) == Break(pen)
  {
  }

  lemma RestIff(ts: seq<Token>, rest: seq<Token>)
    requires |ts| > 1 && rest == ts[1..] && !(Dotless(ts[0]) && ts[1].typ == Dot)
    ensures NoSplitNumber(ts) <==> NoSplitNumber(rest)
    ensures NoArrowFn(ts) <==> ts[0].typ != ArrowFn && NoArrowFn(rest)
  {
    hide Dotless;
    assert forall i :: 0 <= i < |rest| ==> rest[i] == ts[i + 1];
    if NoSplitNumber(rest) {
      forall i | 0 <= i < |ts| - 1 && Dotless(ts[i]) ensures ts[i + 1].typ != Dot {
        assert i > 0 ==> ts[i] == rest[i - 1] && ts[i + 1] == rest[i];
      }
    }
    if NoArrowFn(rest) && ts[0].typ != ArrowFn {
      forall i | 0 <= i < |ts| ensures ts[i].typ != ArrowFn {
        assert i > 0 ==> ts[i] == rest[i - 1];
      }
    }
  }

  // ----- formatting twice -----

  predicate SamePen(a: Pen, b: Pen) {
    a.indent == b.indent && a.newLine == b.newLine
    && (a.prev == b.prev || ((a.prev == Arrow || a.prev == ArrowFn) && (b.prev == Arrow || b.prev == ArrowFn)))
  }

  lemma StepsAlike(t: Token, a: Pen, b: Pen)
    requires SamePen(a, b)
    ensures Before(Arrowed(t).typ, a) == Before(t.typ, b) && Written(Arrowed(t)) == Written(t)
    ensures After(Arrowed(t).typ) == After(t.typ) && SamePen(Next(Arrowed(t).typ, a), Next(t.typ, b))
  {
    hide Indentation, SpaceBetween;
    ArrowsSpaceAlike(t.typ);
  }

  lemma ArrowsSpaceAlike(typ: TokenType)
    ensures SpaceBetween(Arrow, typ) == SpaceBetween(ArrowFn, typ)
  {
  }

  lemma {:induction false} ArrowsFormatAlike(ts: seq<Token>, a: Pen, b: Pen)
    requires SamePen(a, b)
    ensures Format(AllArrowed(ts), a) == Format(ts, b)
    decreases |ts|
  {
    hide Before, Written, After, Next, SamePen;
    assert a.newLine == b.newLine by { NewLinesAlike(a, b); }
    if ts != [] && ts[0].typ != Eof {
      StepsAlike(ts[0], a, b);
      ArrowsFormatAlike(ts[1..], Next(Arrowed(ts[0]).typ, a), Next(ts[0].typ, b));
      assert AllArrowed(ts)[1..] == AllArrowed(ts[1..]);
    }
  }

  lemma NewLinesAlike(a: Pen, b: Pen)
    requires SamePen(a, b)
    ensures a.newLine == b.newLine
  {
  }

  /** Formatting is idempotent, `=>` included. */
  lemma FormatTwice(ts: seq<Token>)
    requires WellFormed(ts) && NoSplitNumber(ts)
    ensures Format(Lex(Format(ts, Fresh)), Fresh) == Format(ts, Fresh)
  {
    LexFormat(ts, Fresh);
    ArrowsFormatAlike(ts, Fresh, Fresh);
  }

  // ----- from any source -----

  lemma {:induction false} WordCut(s: string)
    ensures var n := WordLength(s); WordLength(s[..n]) == n
  {
    if s != [] && IsWord(s[0]) {
      WordCut(s[1..]);
      var n := WordLength(s);
      assert s[..n][1..] == s[1..][..n - 1];
    }
  }

  lemma NumberCut(s: string)
    ensures var n := NumberLength(s); NumberLength(s[..n]) == n
  {
    var n, d := NumberLength(s), DigitsLength(s);
    DigitsOnly(s);
    if d < n {
      DigitsOnly(s[d + 1..]);
      assert s[..n] == s[..d] + s[d..n];
      DigitsStop(s[..d], s[d..n]);
      assert s[..n][d + 1..] == s[d + 1..][..n - d - 1];
    }
  }

  lemma {:induction false} ClosingCut(s: string, triple: bool)
    requires ClosingLength(s, triple).Closed?
    ensures var n := ClosingLength(s, triple).length; ClosingLength(s[..n], triple) == Closed(n)
    decreases |s|
  {
    var n := ClosingLength(s, triple).length;
    var cut := s[..n];
    if !triple && s[0] == '\"' {
    } else if triple && Quotes(s, 3) {
    } else {
      var step := if s[0] == '\\' && |s| > 1 then 2 else 1;
      ClosingCut(s[step..], triple);
      assert cut[step..] == s[step..][..n - step];
      ClosesInside(s[step..], triple);
      assert triple ==> !Quotes(cut, 3);
    }
  }

  lemma StringCut(s: string)
    requires s != [] && s[0] == '\"' && StringLength(s).Closed?
    ensures var n := StringLength(s).length; StringLength(s[..n]) == Closed(n)
  {
    var n, o := StringLength(s).length, OpeningLength(s);
    ClosingCut(s[o..], o == 3);
    assert s[..n][o..] == s[o..][..n - o];
    assert Quotes(s[..n], 3) ==> s[..n][1] == s[1] && s[..n][2] == s[2];
  }

  lemma ScanCut(s: string)
    requires s != [] && Scan(s).typ != ErrorToken
    ensures var n := Scan(s).length; Scan(s[..n]) == Scan(s)
  {
    hide WordLength, NumberLength, StringLength, KeywordType;
    var n := Scan(s).length;
    WordCut(s);
    NumberCut(s);
    if s[0] == '\"' { StringCut(s); }
    assert s[..n][..n] == s[..n];
    assert s[..n][0] == s[0] && (n > 1 ==> s[..n][1] == s[1]);
  }

  /** What the lexer returns without an error is well formed. */
  lemma {:induction false} LexIsWellFormed(s: string)
    requires Lexes(s)
    ensures WellFormed(Lex(s))
    decreases |s|
  {
    hide Scan, BlankLength;
    var rest := s[BlankLength(s)..];
    if rest != [] {
      var first := Scan(rest);
      ScanCut(rest);
      var more := rest[first.length..];
      assert Lex(s)[1..] == Lex(more);
      LexIsWellFormed(more);
    }
  }

  /** Formatting a source that lexes keeps its tokens exactly under the same two conditions. */
  lemma SourceRoundTrip(s: string)
    requires Lexes(s)
    ensures var ts := Lex(s);
            Lex(Format(ts, Fresh)) == ts <==> NoSplitNumber(ts) && NoArrowFn(ts)
  {
    LexIsWellFormed(s);
    RoundTripIff(Lex(s), Fresh);
  }

  lemma SmallTokens()
    ensures Lexable(Token(NumberToken, "1")) && Lexable(Token(Dot, ".")) && Lexable(Token(ArrowFn, "=>"))
  {
    assert Scan("=>") == Scanned(ArrowFn, 2);
    assert DigitsLength("1"[1..]) == 0;
  }

  /** The tokens of `1 .` and of `=>` are well formed, and formatting does not keep them. */
  lemma TokensAreLost()
    ensures var ts := [Token(NumberToken, "1"), Token(Dot, "."), Token(Eof, [])];
            WellFormed(ts) && Lex(Format(ts, Fresh)) != ts
    ensures var ts := [Token(ArrowFn, "=>"), Token(Eof, [])];
            WellFormed(ts) && Lex(Format(ts, Fresh)) != ts
  {
    hide Lexable, Lex, Format;
    SmallTokens();
    var end := [Token(Eof, [])];
    var point := [Token(Dot, ".")] + end;
    var ts := [Token(NumberToken, "1"), Token(Dot, "."), Token(Eof, [])];
    var us := [Token(ArrowFn, "=>"), Token(Eof, [])];
    assert point[1..] == end && ts[1..] == point && us[1..] == end;
    assert WellFormed(end) && WellFormed(point);
    assert Dotless(ts[0]) && ts[1].typ == Dot;
    RoundTripIff(ts, Fresh);
    assert us[0].typ == ArrowFn;
    RoundTripIff(us, Fresh);
  }
}
